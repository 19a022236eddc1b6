# Seat allocator, modelled in Dafny

This project models the airline seat allocator of `pyiapa/seatallocator`. An
input has two parts:

- a dimension line giving the number of rows and the number of seats per row;
- one line per group of passengers who want to sit together, where each
  passenger is a number, or a number followed by `W` for a window seeker.

The parser builds `Passenger` objects group by group. The allocator then works
in these steps:

1. It sorts the groups, largest first and then most window seekers first.
2. It seats each group whole in the first suitable row, opening rows on demand.
3. It moves groups larger than a row to an overflow list. It seats that list
   passenger by passenger, window seekers first, with each one flagged as
   separated.
4. It trims the rows beyond the plane and swaps window seekers to the row ends.
5. It scores the run as the percentage of the satisfaction awarded.

Satisfaction is counted in half-units throughout: 2 is full, 1 is half and 0
is none. These are the only awards the source makes (1, 0.5 and 0).

Modules, one per concept:

- `Wrappers`: the `Option`, `Outcome` and `Result` datatypes.
- `Decimal`: `Integer.parseInt` and `String.valueOf` over unbounded integers.
- `Passengers`: the `Passenger` class, plus the sequence functions the
  allocator and the parser share. These are window counts, the window-first
  order, duplicate-freedom and flattening.
- `Rows`: the `RowDescriptor` class.
- `GroupOrder`: the group sort.
- `Arrangement`: the swap loop of the clean-up, on one row.
- `Scoring`: which rows the score reads, and the percentage.
- `Allocation`: the `SeatAllocator` class. Its methods change the rows, the
  descriptors and the passengers in place. Each loop of `allocateSeats` is a
  method whose invariant is one predicate, and each loop body is a turn
  method with a method per branch.
- `Tokens`: Java's `split("[\\s+]")` on one line, and the classification of a
  token as `\d+` or `\d+W`.
- `Parser`: `Parse`, a function of the input lines that states what a parse
  yields or which error it raises. Also the `PassengerParser` class, whose
  `ParseInputFile` method is proved against `Parse`.

How the two halves connect:

- A successful parse has dimensions of at least 1. `ParsedShape` states this.
- The parser's groups never hold the same passenger twice (`Collected`). The
  allocator's per-passenger satisfaction bounds are stated under exactly that
  hypothesis.
- The parser's `passengerCount` is the number of passengers it read. With
  that count, `AllocateSeats` cannot fail on a plane with rows, and for a
  positive count its score is a percentage in `[0, 100]`. A parse with no
  passengers (a passenger line of separators only, such as `+`) gives a count
  of 0, and the score is then undefined.

Source paths in the table are relative to the repository root.

## Model

| member | source | states |
|---|---|---|
| Decimal.ParseInt | src/main/java/com/pyiapa/seatallocator/utilities/PassengerParser.java:98-99 | An integer is parsed exactly when the text is an optional sign followed by at least one ASCII digit. Anything else is a number format error. |
| Decimal.IntToString | src/main/java/com/pyiapa/seatallocator/domain/Passenger.java:115-117 | A natural number renders as digits with no leading zero; a negative one as a minus sign followed by such digits, not starting with zero. |
| Decimal.NatToStringOfDigits | src/main/java/com/pyiapa/seatallocator/domain/Passenger.java:115-117 | Digits with no leading zero are the rendering of their own value. |
| Decimal.IntToStringUnique | src/main/java/com/pyiapa/seatallocator/domain/Passenger.java:115-117 | The rendering is the only string of its form (`Canonical`) that parses to the integer, so strings such as `007`, `+7` or `-0` are never produced. |
| Decimal.ParseIntOfIntToString | src/main/java/com/pyiapa/seatallocator/domain/Passenger.java:115-117 | Parsing the decimal rendering of any integer gives that integer back. |
| Passengers.Passenger.constructor | src/main/java/com/pyiapa/seatallocator/domain/Passenger.java:37-46 | The id, window preference and in-group flag are stored as given. Satisfaction starts at 0 and the separated flag starts false. |
| Passengers.Passenger.GetSatisfaction | src/main/java/com/pyiapa/seatallocator/domain/Passenger.java:53-55 | Returns the current satisfaction and changes nothing. |
| Passengers.Passenger.UpdateSatisfaction | src/main/java/com/pyiapa/seatallocator/domain/Passenger.java:62-64 | Adds the amount to the satisfaction and to nothing else. |
| Passengers.Passenger.IsSeparatedFromGroup | src/main/java/com/pyiapa/seatallocator/domain/Passenger.java:98-100 | Returns the separated flag and changes nothing. |
| Passengers.Passenger.SetSeparatedFromGroup | src/main/java/com/pyiapa/seatallocator/domain/Passenger.java:108-110 | Sets only the separated flag. The id and both preferences are constants of the class, so they never change. |
| Passengers.Passenger.ToString | src/main/java/com/pyiapa/seatallocator/domain/Passenger.java:115-117 | The rendering `IntToString` gives of the id: of the canonical form, and parsing it back gives the id. |
| Passengers.WindowCount | src/main/java/com/pyiapa/seatallocator/services/SeatAllocator.java:120-125 | The number of window seekers in a sequence is at most its length. |
| Passengers.WindowSeekers | src/main/java/com/pyiapa/seatallocator/services/SeatAllocator.java:169-174 | Everyone it keeps wants a window. |
| Passengers.NonSeekers | src/main/java/com/pyiapa/seatallocator/services/SeatAllocator.java:169-174 | Nobody it keeps wants a window. |
| Passengers.PartitionIsPermutation | src/main/java/com/pyiapa/seatallocator/services/SeatAllocator.java:169-174 | Together, the window seekers and the others are exactly the passengers given. |
| Passengers.WindowFirstOrder | src/main/java/com/pyiapa/seatallocator/utilities/PassengerParser.java:162-167 | The window-first sort of a group, used again for the overflow list: a permutation of its input in which every window seeker precedes every other passenger. |
| Passengers.PermutationWindowCount | src/main/java/com/pyiapa/seatallocator/services/SeatAllocator.java:376-418 | Reordering passengers does not change how many of them want a window. |
| Rows.RowDescriptor.constructor | src/main/java/com/pyiapa/seatallocator/domain/RowDescriptor.java:31-38 | The seat and window-seat counters are set to the arguments, and the row satisfaction to 0. |
| Rows.RowDescriptor.GetAvailableSeats | src/main/java/com/pyiapa/seatallocator/domain/RowDescriptor.java:45-47 | Returns the seats left and changes nothing. |
| Rows.RowDescriptor.UpdateAvailableSeats | src/main/java/com/pyiapa/seatallocator/domain/RowDescriptor.java:55-57 | Adds the delta to the seats left. The other two counters are outside its frame. |
| Rows.RowDescriptor.GetAvailableWindowSeats | src/main/java/com/pyiapa/seatallocator/domain/RowDescriptor.java:64-66 | Returns the window seats left and changes nothing. |
| Rows.RowDescriptor.UpdateAvailableWindowSeats | src/main/java/com/pyiapa/seatallocator/domain/RowDescriptor.java:74-76 | Adds the delta to the window seats left, and to nothing else. |
| Rows.RowDescriptor.GetRowSatisfaction | src/main/java/com/pyiapa/seatallocator/domain/RowDescriptor.java:83-85 | Returns the row satisfaction and changes nothing. |
| Rows.RowDescriptor.UpdateRowSatisfaction | src/main/java/com/pyiapa/seatallocator/domain/RowDescriptor.java:92-94 | Adds the amount to the row satisfaction, and to nothing else. |
| Rows.Totals | src/main/java/com/pyiapa/seatallocator/services/SeatAllocator.java:359-360 | The row totals the score adds up: one per descriptor, in row order. |
| GroupOrder.InsertGroup | src/main/java/com/pyiapa/seatallocator/services/SeatAllocator.java:378-415 | Inserting a group adds exactly that group to the list. |
| GroupOrder.InsertGroupSorted | src/main/java/com/pyiapa/seatallocator/services/SeatAllocator.java:378-415 | Inserting into a list already in comparator order keeps it in that order. |
| GroupOrder.SortGroups | src/main/java/com/pyiapa/seatallocator/services/SeatAllocator.java:376-418 | The sort is a permutation of the groups. Every group precedes every later one: it is larger, or of equal size with at least as many window seekers. |
| GroupOrder.SortGroupsStable | src/main/java/com/pyiapa/seatallocator/services/SeatAllocator.java:376-418 | Groups that tie on both size and window seekers keep their input order, because the library sort is stable. |
| GroupOrder.WithKey | src/main/java/com/pyiapa/seatallocator/services/SeatAllocator.java:383-410 | Each group it keeps comes from the list and has the given size and window-seeker count. |
| Arrangement.Swap | src/main/java/com/pyiapa/seatallocator/services/SeatAllocator.java:333-335 | The two positions exchange their passengers, and every other position is unchanged. |
| Arrangement.SwapPermutes | src/main/java/com/pyiapa/seatallocator/services/SeatAllocator.java:333-335 | A swap reorders the row without adding or losing anybody. |
| Arrangement.ArrangeRow | src/main/java/com/pyiapa/seatallocator/services/SeatAllocator.java:325-340 | The row keeps its length and its passengers. It is unchanged when there is no window seat or nobody wants one. Otherwise a window seeker ends at index 0, and with two window seats and two seekers another one ends at the last index. |
| Arrangement.ArrangedWindowCount | src/main/java/com/pyiapa/seatallocator/services/SeatAllocator.java:324-341 | The clean-up does not change how many window seekers a row holds. |
| Scoring.CeilDiv | src/main/java/com/pyiapa/seatallocator/services/SeatAllocator.java:361-363 | The least number of rows of a given width that holds the count. |
| Scoring.RowsScoredStops | src/main/java/com/pyiapa/seatallocator/services/SeatAllocator.java:359-365 | The loop reads no rows when the plane has none, and otherwise at least row 0 and at most `numRows` rows. It passes row `j` only while passengers remain after `j` rows, and it stops early only once none remain. |
| Scoring.RowsScoredNext | src/main/java/com/pyiapa/seatallocator/services/SeatAllocator.java:359-365 | When the loop reaches row `c` it reads that row, and it stops after it exactly when no passengers remain. |
| Scoring.RowsScoredInRange | src/main/java/com/pyiapa/seatallocator/services/SeatAllocator.java:359-365 | When the opened rows can hold the counted passengers, every row the loop reads exists. |
| Scoring.Score | src/main/java/com/pyiapa/seatallocator/services/SeatAllocator.java:368 | The value is a percentage exactly when the count is not zero, and then it equals the satisfaction over the count times 100. |
| Scoring.ScoreInRange | src/main/java/com/pyiapa/seatallocator/services/SeatAllocator.java:368 | With a positive count and at most full satisfaction per passenger, the score lies in `[0, 100]`. |
| Allocation.Award | src/main/java/com/pyiapa/seatallocator/services/SeatAllocator.java:261-287 | The award is at most full. It is full exactly when the passenger is not separated and either does not want a window or gets one. |
| Allocation.AwardSeparated | src/main/java/com/pyiapa/seatallocator/services/SeatAllocator.java:271-286 | A separated window seeker with a free window seat scores half; every other separated passenger scores nothing. |
| Allocation.OversizedFilter | src/main/java/com/pyiapa/seatallocator/services/SeatAllocator.java:134-140 | The groups sent to the overflow list are exactly the groups larger than a row. |
| Allocation.AwardWithinMaxGain | src/main/java/com/pyiapa/seatallocator/services/SeatAllocator.java:261-287 | No award exceeds `MaxGain`: full satisfaction for a passenger seated with the group, half for a separated window seeker, nothing for anyone else separated. |
| Allocation.OverflowMembers | src/main/java/com/pyiapa/seatallocator/services/SeatAllocator.java:134-140 | Every member of a group larger than a row reaches the overflow list; with nobody twice, no member of a group that fits one does. |
| Allocation.ComposeGains | src/main/java/com/pyiapa/seatallocator/services/SeatAllocator.java:134-209 | With nobody twice, the phase 1 bound and the phase 2 bound compose into one bound over the whole run (`SeatingGains`), because phase 2 seats exactly the overflow list. |
| Allocation.GainsPermutation | src/main/java/com/pyiapa/seatallocator/services/SeatAllocator.java:104-106 | The whole-run bound holds for the groups in any order, so sorting them changes nothing in it. |
| Allocation.CountWindowPreferences | src/main/java/com/pyiapa/seatallocator/services/SeatAllocator.java:120-125 | The loop counts the group's window seekers. |
| Allocation.SeatAllocator.constructor | src/main/java/com/pyiapa/seatallocator/services/SeatAllocator.java:65-76 | Stores the groups, the dimensions, the count and the window seats, with no rows and no descriptors. |
| Allocation.SeatAllocator.FindSuitableRow | src/main/java/com/pyiapa/seatallocator/services/SeatAllocator.java:222-250 | Changes nothing. Returns -1 exactly when no row in `0..availableRows` suits (the group fits, and there are enough window seats, nobody wants a window, or the bound has reached `numRows`); otherwise it returns the least row that suits. |
| Allocation.SeatAllocator.UpdateSatisfaction | src/main/java/com/pyiapa/seatallocator/services/SeatAllocator.java:297-300 | The same amount goes to the passenger and to the row. The row's seat counters stay as they were. |
| Allocation.SeatAllocator.FitPassengerInCurrentRow | src/main/java/com/pyiapa/seatallocator/services/SeatAllocator.java:256-291 | Changes only row `r` and the passenger. The seats left drop by 1, and the window seats left drop by 1 exactly when the passenger wants a window and one was left. The passenger and the row gain the same `Award`, the passenger is appended to the row, and the descriptor invariant `Valid` is kept. |
| Allocation.SeatAllocator.OpenRow | src/main/java/com/pyiapa/seatallocator/services/SeatAllocator.java:145-146 | Appends one empty row with a new, unused descriptor, keeping the earlier ones and `Valid`. The new descriptor offers every window seat of the plane and has no satisfaction yet. |
| Allocation.SeatAllocator.SeatGroup | src/main/java/com/pyiapa/seatallocator/services/SeatAllocator.java:155-157 | The group is appended to row `r`, in order. With nobody twice, each member gains between nothing and full satisfaction. |
| Allocation.SeatAllocator.OpenRowInPhase1 | src/main/java/com/pyiapa/seatallocator/services/SeatAllocator.java:142-150 | Opens one row and advances the scan bound. The phase 1 invariant holds, and the termination measure drops. |
| Allocation.SeatAllocator.OverflowInPhase1 | src/main/java/com/pyiapa/seatallocator/services/SeatAllocator.java:134-140 | The head group goes unchanged to the overflow list, nobody is seated, and the phase 1 invariant holds. |
| Allocation.SeatAllocator.SeatGroupInPhase1 | src/main/java/com/pyiapa/seatallocator/services/SeatAllocator.java:152-161 | The head group is seated whole, contiguously, at the end of the chosen row. The phase 1 invariant holds, and nobody outside the group changes. |
| Allocation.SeatAllocator.Phase1Turn | src/main/java/com/pyiapa/seatallocator/services/SeatAllocator.java:117-163 | One iteration either takes the head group or opens exactly one row. It keeps the phase 1 invariant and decreases the termination measure. |
| Allocation.SeatAllocator.RunPhase1 | src/main/java/com/pyiapa/seatallocator/services/SeatAllocator.java:114-165 | The loop terminates. Every member of every group is then in a row or in the overflow list, exactly once, and the overflow list is the oversized groups in order. Each other group is seated whole, contiguously and in order, in one row. |
| Allocation.SeatAllocator.SeatGroups | src/main/java/com/pyiapa/seatallocator/services/SeatAllocator.java:114-165 | Phase 1 from the groups the allocator holds: the `RunPhase1` guarantees. With nobody twice, `Phase1Gains` relates the satisfactions `sat0` held at the call to those after: every member gains at most full satisfaction, and members of oversized groups gain nothing. |
| Allocation.SeatAllocator.OpenRowInPhase2 | src/main/java/com/pyiapa/seatallocator/services/SeatAllocator.java:189-198 | Opens one row at the end and widens the scan bound by one, keeping the phase 2 invariant. |
| Allocation.SeatAllocator.SeatInPhase2 | src/main/java/com/pyiapa/seatallocator/services/SeatAllocator.java:200-208 | The passenger is flagged as separated and appended to the chosen row, keeping the phase 2 invariant. |
| Allocation.SeatAllocator.Phase2Turn | src/main/java/com/pyiapa/seatallocator/services/SeatAllocator.java:183-208 | One iteration either seats the head passenger or opens one row, keeping the phase 2 invariant and decreasing the termination measure. |
| Allocation.SeatAllocator.RunPhase2 | src/main/java/com/pyiapa/seatallocator/services/SeatAllocator.java:177-209 | The loop terminates, with every separated passenger seated, starting again from scan bound 0. |
| Allocation.SeatAllocator.SeatSeparatedPassengers | src/main/java/com/pyiapa/seatallocator/services/SeatAllocator.java:177-209 | Earlier rows only grow. The rows then hold what they held plus exactly the separated passengers, each flagged as separated. With nobody twice, a window seeker gains at most half and anyone else gains nothing. |
| Allocation.SeatAllocator.GetSeatConfiguration | src/main/java/com/pyiapa/seatallocator/services/SeatAllocator.java:307-345 | Fails exactly when `numRows` is negative, because the trim then removes from an empty list. Otherwise it keeps the first `min(rows, numRows)` rows and arranges each as `ArrangeRow` states. |
| Allocation.SeatAllocator.GetSatisfaction | src/main/java/com/pyiapa/seatallocator/services/SeatAllocator.java:350-369 | Succeeds exactly when the rows the loop reads (`RowsScored`) all exist. The value is then `Score` of the sum of their totals. |
| Allocation.SeatAllocator.TotalsBound | src/main/java/com/pyiapa/seatallocator/services/SeatAllocator.java:359-360 | The totals of the first `k` rows lie between 0 and full satisfaction for each of their occupants. |
| Allocation.SeatAllocator.TotalsBoundAll | src/main/java/com/pyiapa/seatallocator/services/SeatAllocator.java:359-360 | The totals of the first `k` rows are at most full satisfaction for everybody seated. |
| Allocation.SeatAllocator.SeatPassengers | src/main/java/com/pyiapa/seatallocator/services/SeatAllocator.java:104-209 | After the sort and both phases, every passenger of every group occurs exactly once across the rows, and the descriptor invariant holds. Every member of a group larger than a row is flagged as separated. With nobody twice, each member of a group gains at most full satisfaction when the group fits a row and keeps its flag; otherwise it gains at most half as a window seeker and nothing else. |
| Allocation.SeatAllocator.SeatSorted | src/main/java/com/pyiapa/seatallocator/services/SeatAllocator.java:108-209 | The first row is opened, phase 1 runs, and phase 2 runs on the overflow list in window-first order. Every passenger is then in the rows exactly once, and members of groups larger than a row are flagged as separated. With nobody twice, `SeatingGains` holds over the whole run, and members of the other groups keep their flag. |
| Allocation.SeatAllocator.SeatSortedGroups | src/main/java/com/pyiapa/seatallocator/services/SeatAllocator.java:104-209 | What `SeatSorted` states, restated for the groups in their order before the sort. |
| Allocation.SeatAllocator.OpenAndSeatGroups | src/main/java/com/pyiapa/seatallocator/services/SeatAllocator.java:108-165 | Opens the first row, then runs phase 1. Every descriptor is new, the rows and the overflow list hold every passenger once, and the overflow list is the oversized groups. With nobody twice, `Phase1Gains` holds over `sat0`; no flag changes. |
| Allocation.SeatAllocator.SeatWindowFirst | src/main/java/com/pyiapa/seatallocator/services/SeatAllocator.java:167-209 | The overflow list, put window seekers first, is seated and flagged. With nobody twice, `Phase2Gains` holds between the satisfactions before and after. Of the passengers in `S`, only those of the overflow list change. |
| Allocation.SeatAllocator.SeatOverflow | src/main/java/com/pyiapa/seatallocator/services/SeatAllocator.java:114-209 | Phase 2 after phase 1: everybody ends up in the rows once, members of oversized groups are flagged, and with nobody twice the phase 1 bound composes with the phase 2 bound into `SeatingGains`. Members of the other groups keep their flag. |
| Allocation.SeatAllocator.Conclude | src/main/java/com/pyiapa/seatallocator/services/SeatAllocator.java:212 | The clean-up, then the score. It fails exactly for a negative `numRows` or when a row the score reads is missing. Otherwise it returns the trimmed and arranged rows, and a score of totals between 0 and full satisfaction for everybody seated. |
| Allocation.SeatAllocator.AllocateSeats | src/main/java/com/pyiapa/seatallocator/services/SeatAllocator.java:86-214 | Everybody is seated exactly once and no row exceeds its width. The result is the trim and arrangement of those rows, with the score they give. It fails only for a negative `numRows` or too large a passenger count, and never on a plane with rows when the count is at most the passengers given. With a positive count at least that large, the score is in `[0, 100]`. Members of groups larger than a row end flagged as separated. With nobody twice, each passenger gains at most `MaxGain`: full satisfaction in a group that fits a row (whose members keep their flag), half for a separated window seeker, nothing for anyone else separated. |
| Tokens.Separators | src/main/java/com/pyiapa/seatallocator/utilities/PassengerParser.java:88 | Every element it keeps is one of the split characters: whitespace or `+`. |
| Tokens.Text | src/main/java/com/pyiapa/seatallocator/utilities/PassengerParser.java:88 | What a line holds besides its separators has no separator. |
| Tokens.Pieces | src/main/java/com/pyiapa/seatallocator/utilities/PassengerParser.java:88 | Splitting at every separator gives one piece more than there are separators. |
| Tokens.InterleavePieces | src/main/java/com/pyiapa/seatallocator/utilities/PassengerParser.java:88 | Putting the separators back between the pieces gives the line again. |
| Tokens.DropTrailingEmptyKeeps | src/main/java/com/pyiapa/seatallocator/utilities/PassengerParser.java:88 | Dropping trailing empty strings keeps a prefix. Only empty strings are dropped, and the last one kept is not empty. |
| Tokens.PiecesNoSeparator | src/main/java/com/pyiapa/seatallocator/utilities/PassengerParser.java:88 | No piece holds a separator. |
| Tokens.SplitKeepsText | src/main/java/com/pyiapa/seatallocator/utilities/PassengerParser.java:88 | The tokens hold no separator, and together they are the line's text without the separators. |
| Tokens.SplitBlankLine | src/main/java/com/pyiapa/seatallocator/utilities/PassengerParser.java:128 | A non-empty line of separators only has no token. |
| Tokens.SplitLeadingSeparator | src/main/java/com/pyiapa/seatallocator/utilities/PassengerParser.java:128 | A line that starts with a separator and holds some text has an empty first token, and at least two tokens. |
| Tokens.SplitJoin | src/main/java/com/pyiapa/seatallocator/utilities/PassengerParser.java:128 | Non-empty tokens without separators, joined by single spaces, split back into themselves. |
| Tokens.Classify | src/main/java/com/pyiapa/seatallocator/utilities/PassengerParser.java:135-154 | A token is a passenger exactly when it is digits, or digits followed by `W`. The id is the value of the digits, and the passenger wants a window exactly in the second form. |
| Tokens.Render | src/main/java/com/pyiapa/seatallocator/utilities/PassengerParser.java:135-147 | The token of a passenger is non-empty and has no separator. |
| Tokens.ClassifyRender | src/main/java/com/pyiapa/seatallocator/utilities/PassengerParser.java:135-147 | A rendered passenger token is classified back as that passenger. |
| Tokens.ClassifyEmpty | src/main/java/com/pyiapa/seatallocator/utilities/PassengerParser.java:151-154 | The empty token is not a passenger. |
| Parser.Entries | src/main/java/com/pyiapa/seatallocator/utilities/PassengerParser.java:139-149 | What the parser records of a group, passenger by passenger, in order. |
| Parser.Dimensions | src/main/java/com/pyiapa/seatallocator/utilities/PassengerParser.java:88-111 | The dimension line is accepted exactly when it splits into two integers written in ASCII digits, both at least 1, and then it gives those two. Its checks run in order, each with its own error: a token count other than two is `InvalidDimensions`; two tokens of which one is not an integer is `NonNumericDimensions`; two integers of which one is below 1 is `DimensionsBelowOne`. |
| Parser.EntriesOf | src/main/java/com/pyiapa/seatallocator/utilities/PassengerParser.java:133-158 | An accepted line gives one passenger per token. |
| Parser.GroupsOf | src/main/java/com/pyiapa/seatallocator/utilities/PassengerParser.java:124-175 | There are at most as many groups as passenger lines. |
| Parser.CollectedSnoc | src/main/java/com/pyiapa/seatallocator/utilities/PassengerParser.java:170-172 | Appending a window-first group of new passengers keeps the groups collected. |
| Parser.PassengerParser.constructor | src/main/java/com/pyiapa/seatallocator/utilities/PassengerParser.java:22-42 | The implicit constructor: every counter is 0 and there are no groups. |
| Parser.PassengerParser.NewPassenger | src/main/java/com/pyiapa/seatallocator/utilities/PassengerParser.java:135-154 | A token yields a new passenger exactly when it classifies. That passenger has the token's id and window preference and the given in-group flag. |
| Parser.PassengerParser.ReadGroup | src/main/java/com/pyiapa/seatallocator/utilities/PassengerParser.java:128-158 | The tokens are read exactly when all of them classify. There is one passenger per token, in order, with `inGroup` exactly when the line does not have a single token. Each is counted once, and nobody occurs twice or was read before. |
| Parser.PassengerParser.ReadToken | src/main/java/com/pyiapa/seatallocator/utilities/PassengerParser.java:133-158 | One token: its passenger joins the group and the count grows by 1; a token that is not a passenger refuses the line. |
| Parser.PassengerParser.ParseInputFile | src/main/java/com/pyiapa/seatallocator/utilities/PassengerParser.java:84-175 | Fails exactly when `Parse` fails, with the same error. On success it stores `Parse`'s dimensions and, per passenger line with a passenger, its group in window-first order. Nobody occurs twice, and the count grows by the passengers read. |
| Parser.PassengerParser.ReadGroups | src/main/java/com/pyiapa/seatallocator/utilities/PassengerParser.java:120-175 | Fails, with the invalid-format error, exactly when some passenger line is malformed. Otherwise the groups and the count are what `GroupsOf` says. |
| Parser.PassengerParser.ReadLine | src/main/java/com/pyiapa/seatallocator/utilities/PassengerParser.java:126-172 | One line: its group is collected and counted, or the whole input is refused. |
| Parser.PassengerParser.AddGroup | src/main/java/com/pyiapa/seatallocator/utilities/PassengerParser.java:162-172 | Stores the group in window-first order when it is not empty. Otherwise it stores nothing. |
| Parser.PassengerParser.GetNumSeatsInRow | src/main/java/com/pyiapa/seatallocator/utilities/PassengerParser.java:185-187 | Returns the seats per row. |
| Parser.PassengerParser.GetNumRows | src/main/java/com/pyiapa/seatallocator/utilities/PassengerParser.java:194-196 | Returns the rows. |
| Parser.PassengerParser.GetPassengerCount | src/main/java/com/pyiapa/seatallocator/utilities/PassengerParser.java:203-205 | Returns the passenger count. |
| Parser.PassengerParser.GetPassengerGroups | src/main/java/com/pyiapa/seatallocator/utilities/PassengerParser.java:212-214 | Returns the groups. |
| Parser.PassengerParser.GetNumWindowsInPlane | src/main/java/com/pyiapa/seatallocator/utilities/PassengerParser.java:32 | Always 2. |
| Parser.GroupsOfNone | src/main/java/com/pyiapa/seatallocator/utilities/PassengerParser.java:151-154 | A malformed line refuses the input, whatever lines follow it. |
| Parser.EntriesOfTokens | src/main/java/com/pyiapa/seatallocator/utilities/PassengerParser.java:133-154 | A line is read exactly when every token is a passenger. Each entry is then what its token says, with the line's in-group flag. |
| Parser.GroupsOfShape | src/main/java/com/pyiapa/seatallocator/utilities/PassengerParser.java:139-172 | Every stored group is non-empty and every id is a natural number. A passenger is in a group exactly when the group has two or more members. |
| Parser.ParsedShape | src/main/java/com/pyiapa/seatallocator/utilities/PassengerParser.java:108-172 | A successful parse has both dimensions at least 1, with groups shaped as `GroupsOfShape` says. |
| Parser.ParseErrors | src/main/java/com/pyiapa/seatallocator/utilities/PassengerParser.java:75-154 | The errors in check order. The empty-input error happens exactly for no lines. A bad dimension line gives its own error. The no-passengers error happens exactly for a good dimension line alone. The invalid-format error happens exactly when the dimensions are good and some later line is malformed. |
| Parser.GroupsOfNoneIff | src/main/java/com/pyiapa/seatallocator/utilities/PassengerParser.java:124-175 | The passenger lines are refused exactly when one of them is malformed. |
| Parser.EmptyLineRefused | src/main/java/com/pyiapa/seatallocator/utilities/PassengerParser.java:128-154 | An empty passenger line splits into one empty token and is refused. |
| Parser.BlankLineSkipped | src/main/java/com/pyiapa/seatallocator/utilities/PassengerParser.java:128-172 | A line of separators only has no tokens, so it adds no group and no error. |
| Parser.EmptyTokenRefused | src/main/java/com/pyiapa/seatallocator/utilities/PassengerParser.java:128-154 | A line with an empty token, from two separators in a row or a leading one, is refused. |
| Parser.LineEntriesRender | src/main/java/com/pyiapa/seatallocator/utilities/PassengerParser.java:128-154 | A rendered passenger line is read back as its passengers, with `inGroup` exactly when there are several. |
| Parser.GroupsOfRender | src/main/java/com/pyiapa/seatallocator/utilities/PassengerParser.java:124-175 | Rendered passenger lines are read back as their groups. |
| Parser.ParseRender | src/main/java/com/pyiapa/seatallocator/utilities/PassengerParser.java:84-175 | The round trip: rendering dimensions of at least 1 and non-empty groups as an input, then parsing it, gives back the same dimensions and groups. |

## Left out

- File access is not modelled. Opening the file with `Scanner`/`File` and its
  not-found handler are I/O (PassengerParser.java lines 71-82): the input is
  given as a sequence of lines. A file with no line is the empty sequence.
- The percentage string is not modelled. `DecimalFormat(".##")` is library
  formatting: the score is the exact `real`, with division by a zero count as
  NaN or an infinity.
- Satisfaction is not a `double`. It is an integer count of half-units, which
  is exact because the only awards are 1, 0.5 and 0.
- The order within each class of the two window-first sorts is not modelled.
  The comparators never return 0, so that order depends on the library's sort.
  `WindowFirstOrder` is a stable partition, and its contract only says
  "permutation, window seekers first".
- `Integer.parseInt` overflow is not modelled: ids and dimensions are
  unbounded integers. A dimension over 2^31-1 is a number format error in the
  source but accepted here. A passenger id that overflows makes
  `Integer.parseInt` throw a `NumberFormatException`, an
  `IllegalArgumentException` that `parseInputFile` does not catch; here it is
  accepted.
- Decimal.ParseInt: only ASCII digits are digits. `Integer.parseInt` reads
  digits with `Character.digit` and so also accepts other Unicode decimal
  digits: a dimension line of fullwidth digits such as `４ ４` is a 4 by 4 plane
  in the source, while `Parser.Dimensions` refuses it as non-numeric.
  Passenger tokens are not affected, because `\d` in their patterns is ASCII.
- WindowFirstOrder: the exception path of the two window-first sorts is not
  modelled. Their comparator answers -1 for any window seeker on the left, so
  it breaks the `Comparator` contract, and Java's TimSort checks that contract
  on lists of 32 or more. On such a list, for instance a 32-passenger line
  whose window seekers are the 1st and 17th, the sort can throw
  `IllegalArgumentException("Comparison method violates its general
  contract!")`; likewise in phase 2 for an overflow list that long. The model
  always returns the stable partition. The sort algorithm itself is not
  modelled. The model's seat layout and per-passenger awards follow that one
  admissible order; where several window seekers compete for the window
  seats, the library sort may order them differently (on short lists it may
  reverse them), and then other passengers get the windows and their
  awards.
- Aliasing is not modelled. The source sorts the caller's group list in place
  and empties it while seating. The allocator owns its `passengerGroups`
  sequence, reassigns it to the sorted groups and does not empty it, because
  nothing reads it afterwards.
- `SittingArrangement` is a datatype pair, because the source class only holds
  two references.
- AllocateSeats: stated for an allocator fresh from its constructor and for
  `numSeatsInRow >= 1`. With a row width below 1, phase 2 of the source
  never ends once a passenger reaches the overflow list, and every non-empty
  group does; the parser refuses such dimensions.
- ParseInputFile: the state left after an error is not stated. The source has
  by then set `numRows` (and `numSeatsInRow` when the second dimension
  parses), and on a malformed passenger line it has counted that line's
  earlier passengers and kept the earlier groups.
- ReadGroups: the passengers it creates start with satisfaction 0 and are not
  separated, but that is not part of its contract. Its contract states their
  ids, preferences and in-group flags, and that no passenger occurs twice.
- The groups list is the empty sequence before a parse. In the source it is
  `null` until the first passenger line is reached.
- The unit tests are not modelled, and no concrete test input is checked
  against the model. `Main.java` (argument handling, printing, `System.exit`)
  is outside the model.
- Conclude: stated under the descriptor invariant that seating establishes.
  The score reads row 0 even when the passenger count is not positive, as the
  source does.
