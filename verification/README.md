# Verified models of four bundled algorithms

This project models, in Dafny 4.11, the algorithmic core of four libraries bundled with the repository,
and proves what each is for:

- **The Hungarian assignment solver** (`ColumnMajor`, `Assignments`, `Tableaux`, `AlternatingPath`,
  `Munkres`). The buffers and the mutually tail-calling steps are a class that works on flat column-major
  arrays in place. Ghost row and column potentials and the times at which rows were covered give the
  invariant, termination, and optimality by linear-programming duality.
- **Catch2's section tracker and rerun loop** (`TrackerStates`, `SectionRuns`, `ThrowingRuns`, `RunPlans`,
  `ReachedLeaves`, `SectionTracker`). A value-level machine says what every tracker operation does; the
  classes are proved to do exactly that; and whole runs, whatever throws in them, are proved to stop and to
  follow a plan read off the test body alone, which enters every leaf section within reach exactly once.
- **nanopb's descriptor iterator and UTF-8 validator** (`FieldInfo`, `FieldIterator`, `Utf8`). The packed
  words are proved to stand for a plain list of fields through packing, stepping and searching, and the
  validator is compared with the encoding of section 3 of RFC 3629.
- **bcdec's BC6H and BC7 decoders** (`Bits`, `BitStream`, `Partitions`, `PartitionMasks`, `BlockIndices`,
  `Bc7Format`, `Bc7`, `Bc6hLayout`, `Bc6hFields`, `Bc6hPlaces`, `Bc6hColors`, `Bc6hFormat`, `Bc6h`). The
  formats are written down as places in a 128-bit number, read at random; the decoders, which read from front
  to back out of two 64-bit words, are proved to compute that. The scattered endpoint bits of BC6H are listed
  by their numbers in the block, apart from the order of reading, and proved to be a bijection in every mode.

How the source's terms appear in the models:

- Matrix entries are real numbers, and the threshold of the zero test (`DBL_EPSILON` in the source) is a
  parameter `eps > 0`. The least uncovered entry is found with a flag instead of starting from `DBL_MAX`.
  Negative entries, about which the source only prints a warning, are allowed.
- Buffers that the solver passes from step to step are constant fields of one object; ghost fields record
  what was subtracted from each line and when each row was covered. Inner loops of a step are methods of
  their own.
- A tracker is addressed by the names on the way to it from the root. A path never acquired stands for a
  tracker as its constructor leaves it. A test body is the tree of sections it passes, ending or throwing;
  it behaves the same in every cycle. An internal error is a flag that a run is proved never to raise.
- Packed words are 32-bit vectors, `pb_size_t` is 16 bits wide. The decoded values of an iterator are one
  record, `current`. The list of fields a descriptor stands for is a ghost argument of the operations.
- The decoders' words are natural numbers with bit operations defined on them. A stream remembers, as ghost
  state, the block it was made from and how many bits were taken. The reads of each BC6H mode are kept as
  data, in the order of the source's statements, and one loop performs them. The exchange of channels, three
  exclusive-ors in the source, is an exchange. The BC6H code extends the sign of deltas of unsigned blocks
  too; the model does the same.

Where the code and its comments differ, the code is modelled: step 2a's comment announces step 3 but it
goes to step 2b (src/external/hungarian/Hungarian.hpp:277-278), and the comments of the BC6H reads name
some endpoints wrongly (src/external/bcdec/bcdec.h:780, 838, 864 and 952-956).

`dafny verify dfyconfig.toml` checks the whole project. Some proofs `hide` definitions they do not need.

## Model

| member | source | states |
|---|---|---|
| Munkres.Solve | src/external/hungarian/Hungarian.hpp:64-91 | for every matrix with at least one row, wide or tall, negative entries allowed: a valid assignment of size min(rows, cols), whose cost is the returned sum of original entries and exceeds no other assignment of that size by more than size * eps; exactly cheapest when all entries are multiples of some g >= eps; for a single row, the first entry less than eps above the least |
| Munkres.AssignmentOptimal | src/external/hungarian/Hungarian.hpp:97-224 | the same on the column-major buffer: complete, certified by potentials, and cost is the sum of the chosen entries of the original matrix |
| Munkres.Workspace.Run | src/external/hungarian/Hungarian.hpp:127-210 | from the untouched copy, in both orientations, the preliminary steps and the step cycle end with a complete assignment certified optimal by potentials |
| Munkres.Workspace.constructor | src/external/hungarian/Hungarian.hpp:104-126 | the working copy holds the matrix, nothing is starred, primed or covered, and nothing has been subtracted yet |
| Munkres.Workspace.SubtractRowMinima | src/external/hungarian/Hungarian.hpp:131-156 | with rows <= cols: every entry becomes the original less its row potential and is non-negative; nothing else changes |
| Munkres.Workspace.SubtractColumnMinima | src/external/hungarian/Hungarian.hpp:173-191 | with rows > cols: the same with column potentials |
| Munkres.Workspace.StarRowByRow | src/external/hungarian/Hungarian.hpp:158-167 | the initial stars are zeros forming a matching, and the covered columns are exactly the starred ones |
| Munkres.Workspace.StarColumnByColumn | src/external/hungarian/Hungarian.hpp:193-205 | the same column by column; the row covers used on the way are gone at the end |
| Munkres.Workspace.UncoveredZeroInRow | src/external/hungarian/Hungarian.hpp:159-162 | the first zero of a row in an uncovered column, or none |
| Munkres.Workspace.ZeroInColumn | src/external/hungarian/Hungarian.hpp:194-197 | the first zero of a column in an uncovered row, or none |
| Munkres.Workspace.RowMinimum | src/external/hungarian/Hungarian.hpp:133-146 | a lower bound of the row that is attained in it |
| Munkres.Workspace.AddToRow | src/external/hungarian/Hungarian.hpp:148-155 | the strided walk changes exactly the entries of one row |
| Munkres.Workspace.BuildAssignmentVector | src/external/hungarian/Hungarian.hpp:227-242 | the vector is the stars row by row, and with all stars placed it is a complete certified assignment |
| Munkres.ComputeAssignmentCost | src/external/hungarian/Hungarian.hpp:245-255 | the sum of the chosen entries, rows without a column adding nothing |
| Munkres.Workspace.Step2a | src/external/hungarian/Hungarian.hpp:258-279 | although covered columns are never cleared, it reaches step 2b with exactly the starred columns covered; terminates with the problem solved |
| Munkres.Workspace.Step2b | src/external/hungarian/Hungarian.hpp:282-303 | the covered columns count the stars; finishes with those stars exactly when they fill the smaller side, and terminates with the problem solved |
| Munkres.Workspace.CountCoveredColumns | src/external/hungarian/Hungarian.hpp:286-290 | the count is the number of covered columns |
| Munkres.Workspace.Step3 | src/external/hungarian/Hungarian.hpp:306-346 | from the cover invariant, with stars missing: ends in step 4 or 5 with the invariant kept, terminates by (stars missing, uncovered rows), problem solved |
| Munkres.Workspace.ScanColumns | src/external/hungarian/Hungarian.hpp:315-341 | one pass either finds an uncovered zero in a starless row, or covers more rows, or shows there is no uncovered zero; the invariant holds throughout |
| Munkres.Workspace.PrimeZero | src/external/hungarian/Hungarian.hpp:321-341 | a zero whose row has a star trades the star's column cover for a row cover; one without is only primed |
| Munkres.Workspace.Step4 | src/external/hungarian/Hungarian.hpp:349-400 | exchanging along the path adds exactly one star, after which step 2a applies; terminates with the problem solved |
| Munkres.Workspace.WalkPath | src/external/hungarian/Hungarian.hpp:354-386 | the loop ends, in a column without a star, and newStarMatrix holds the stars exchanged along the whole path |
| Munkres.Workspace.FollowPrime | src/external/hungarian/Hungarian.hpp:367-386 | in the row reached there is a prime; the path is extended by a row never visited before |
| Munkres.Workspace.AdoptNewStars | src/external/hungarian/Hungarian.hpp:388-396 | the new stars are in place, no prime and no covered row remain, all else is as it was |
| Munkres.Workspace.Step5 | src/external/hungarian/Hungarian.hpp:403-434 | with no uncovered zero: shifts by h >= eps, keeps the invariant, leaves an uncovered zero and goes on; terminates with the problem solved |
| Munkres.Workspace.LeastUncoveredEntry | src/external/hungarian/Hungarian.hpp:408-419 | the least uncovered entry, over a set shown to be nonempty |
| Munkres.Workspace.ShiftUncovered | src/external/hungarian/Hungarian.hpp:421-431 | each entry gains h if its row is covered and loses h unless its column is, accounted for by the potentials |
| Munkres.CertifiedGap | src/external/hungarian/Hungarian.hpp:97-224 | a certificate up to eps bounds the gap by size * eps, one without slack makes the assignment cheapest |
| ColumnMajor.IndexIsAffine | src/external/hungarian/Hungarian.hpp:79 | the offset is the source's r + n * c |
| ColumnMajor.Distinct | src/external/hungarian/Hungarian.hpp:76-79 | different entries never share an offset |
| Assignments.CertificateBoundsCost | src/external/hungarian/Hungarian.hpp:131-207 | duality: feasible potentials, tight on the assignment and largest on every unused line, bound its distance from every assignment of its size |
| Assignments.TopOutsideMinimises | src/external/hungarian/Hungarian.hpp:131-207 | an index set outside which all weights are the largest has the least excess sum of its size |
| Assignments.AssignedCounts | src/external/hungarian/Hungarian.hpp:227-242 | an assignment uses as many rows as columns, and that many are assigned |
| Tableaux.PrimeAndCoverKeepsInv | src/external/hungarian/Hungarian.hpp:306-346 | step 3's move keeps: each star under exactly one line, covered rows with one star and one prime, primes zero in uncovered columns, covers in chronological order, reductions accounted for |
| Tableaux.PrimeAndCoverIsMoreRows | src/external/hungarian/Hungarian.hpp:334-341 | the move leaves the stars and covers one row more |
| Tableaux.ShiftKeepsInv | src/external/hungarian/Hungarian.hpp:403-434 | step 5 keeps the invariant, moves no star or prime off its value, shifts by at least eps and creates an uncovered zero |
| Tableaux.MissingStarsLeaveUncovered | src/external/hungarian/Hungarian.hpp:408-419 | while stars are missing some entry is uncovered, so the minimum of step 5 exists |
| Tableaux.StarsAreAssignment | src/external/hungarian/Hungarian.hpp:227-242 | the stars of a matching, read by rows, are an assignment of the starred rows to the starred columns, equally many |
| Tableaux.CompleteIsCertified | src/external/hungarian/Hungarian.hpp:131-207 | with the smaller side filled, in either orientation, the potentials certify the stars |
| Tableaux.GridSmall | src/external/hungarian/Hungarian.hpp:161 | on a grid no finer than eps, passing the zero test means being zero |
| Tableaux.OneRowStar | src/external/hungarian/Hungarian.hpp:131-167 | with a single row the preliminary steps star the first entry less than eps above its least |
| Assignments.OneRowCheapest | src/external/hungarian/Hungarian.hpp:161 | for a single row the result is cheapest if and only if no entry before the first least one comes closer to it than eps |
| Assignments.NearTieIsMissed | src/external/hungarian/Hungarian.hpp:161 | for the row (eps / 2, 0) the result is not cheapest |
| AlternatingPath.ReachedRowIsPrimed | src/external/hungarian/Hungarian.hpp:371-375 | the row the path reaches is covered and has a prime |
| AlternatingPath.PrimeIsNew | src/external/hungarian/Hungarian.hpp:377-381 | the prime leads to a column the path has not visited: covering times decrease along it |
| AlternatingPath.WalkAdvances | src/external/hungarian/Hungarian.hpp:364-386 | a turn of the loop keeps the path alternating, on zeros, in distinct columns and backwards in time |
| AlternatingPath.WalkEnds | src/external/hungarian/Hungarian.hpp:384-396 | at the end the exchanged stars are a matching with exactly one star more, in which every starred row and column is still starred, and reductions and extreme potentials still hold |
| SectionTracker.RunContext.RunTest | src/external/Catch2/catch_amalgamated.cpp:5634-5651 | for every finite body with distinct siblings, whatever it throws: the loop makes exactly the cycles of the plan read off the body, entering its sections in its order; each leaf section is entered exactly once if the body lets it be reached and never otherwise, so every leaf exactly once if no section with sections inside ends in a throw; without exceptions max(1, leaves) cycles enter the leaves in order; at most sections + 1 cycles and no illogical close |
| SectionTracker.RunContext.RunCycle | src/external/Catch2/catch_amalgamated.cpp:5635-5651 | one cycle is the value-level cycle, and reports whether the test case completed successfully |
| SectionTracker.RunContext.RunCurrentTest | src/external/Catch2/catch_amalgamated.cpp:5903-5952 | pass through the body, close the test case, tell the unfinished sections |
| SectionTracker.RunContext.Invoke | src/external/Catch2/catch_amalgamated.cpp:6144-6153 | a pass through a body, each section ended normally or early as its object is destroyed |
| SectionTracker.RunContext.SectionStarted | src/external/Catch2/catch_amalgamated.cpp:5713-5733 | whether the section is included, and the new tracker and section state |
| SectionTracker.RunContext.SectionEnded | src/external/Catch2/catch_amalgamated.cpp:5779-5791 | the innermost active section is closed and popped |
| SectionTracker.RunContext.SectionEndedEarly | src/external/Catch2/catch_amalgamated.cpp:5793-5802 | the first section unwound fails, the ones around it are closed |
| SectionTracker.RunContext.HandleUnfinishedSections | src/external/Catch2/catch_amalgamated.cpp:5967-5976 | every section that ended early is told, none is left |
| SectionTracker.TrackerContext.StartRun | src/external/Catch2/catch_amalgamated.cpp:6705-6714 | a new root, cycle executing |
| SectionTracker.TrackerContext.StartCycle | src/external/Catch2/catch_amalgamated.hpp:10383-10386 | current is the root, cycle executing, trackers as they were |
| SectionTracker.TrackerContext.FindChild | src/external/Catch2/catch_amalgamated.cpp:6672-6685 | found exactly when a child has the name and location |
| SectionTracker.TrackerContext.OpenChild | src/external/Catch2/catch_amalgamated.cpp:6696-6703 | the tracker and its ancestors execute children, up to the first that already does |
| SectionTracker.TrackerContext.Open | src/external/Catch2/catch_amalgamated.cpp:6737-6742 | the tracker executes and is current, its ancestors execute children |
| SectionTracker.TrackerContext.AllChildrenComplete | src/external/Catch2/catch_amalgamated.cpp:6758 | true exactly when every child is complete |
| SectionTracker.TrackerContext.Close | src/external/Catch2/catch_amalgamated.cpp:6744-6772 | open trackers below are closed first; then the state machine's close, current moves to the parent, cycle completed |
| SectionTracker.TrackerContext.Fail | src/external/Catch2/catch_amalgamated.cpp:6773-6779 | the tracker fails, its parent is marked as needing another run and is current, cycle completed; without the mark the run would not follow its plan |
| SectionTracker.TrackerContext.Acquire | src/external/Catch2/catch_amalgamated.cpp:6816-6845 | the named child exists, and is opened unless the cycle or the child has completed |
| SectionRuns.ExecEntersNextLeaf | src/external/Catch2/catch_amalgamated.cpp:5713-5733 | with k leaves of a tracker behind it, one pass over its sections enters exactly the way to leaf k and registers the rest |
| SectionRuns.ExecAfterCompletion | src/external/Catch2/catch_amalgamated.cpp:6816-6840 | once the cycle has completed, further sections are registered but not entered |
| SectionRuns.AllCompleteWhenDone | src/external/Catch2/catch_amalgamated.cpp:6757-6760 | the children of a tracker are all complete exactly when all its leaves are behind it |
| SectionRuns.CycleEntersNextLeaf | src/external/Catch2/catch_amalgamated.cpp:5634-5651 | each cycle discovers and runs one new leaf |
| SectionRuns.CyclesEnterLeavesInOrder | src/external/Catch2/catch_amalgamated.cpp:5634-5651 | after k cycles exactly the ways to the first k leaves were entered in left-to-right depth-first order, and the test case is complete exactly when k is the number of leaves |
| SectionRuns.LeafCounts | src/external/Catch2/catch_amalgamated.cpp:5634-5651 | the leaves listed without any tracker are as many as the loop counts |
| SectionRuns.LeavesDistinct | src/external/Catch2/catch_amalgamated.cpp:6672-6685 | distinct siblings give distinct leaves |
| SectionRuns.TrailEntersOneLeaf | src/external/Catch2/catch_amalgamated.cpp:5634-5651 | the way of cycle k contains leaf k once and no other leaf |
| SectionRuns.LeafEnteredOnce | src/external/Catch2/catch_amalgamated.cpp:5634-5651 | each leaf is entered exactly once: not before its cycle and not after |
| SectionTracker.StopsAfterLeaves | src/external/Catch2/catch_amalgamated.cpp:5651 | a loop that stops when the test case completes stops after exactly as many cycles as there are leaves |
| ThrowingRuns.ExecProgress | src/external/Catch2/catch_amalgamated.cpp:5793-5802 | wherever the body throws, a pass over it either opens nothing or leaves fewer incomplete sections; complete ones stay complete and are not entered, and every leaf entered is complete afterwards |
| ThrowingRuns.CycleProgress | src/external/Catch2/catch_amalgamated.cpp:5635-5651 | a cycle completes the test case or leaves fewer incomplete sections |
| ThrowingRuns.CyclesProgress | src/external/Catch2/catch_amalgamated.cpp:5634-5651 | after k cycles the test case is complete, or at most sections - k sections are incomplete |
| ThrowingRuns.LoopStops | src/external/Catch2/catch_amalgamated.cpp:5634-5651 | the loop stops within sections + 1 cycles with the test case complete, no leaf entered twice and no illogical state |
| SectionTracker.CleanCycle | src/external/Catch2/catch_amalgamated.cpp:6763-6766 | a cycle that ends without an internal error had none on the way, and could close the test case |
| RunPlans.ExecAdvances | src/external/Catch2/catch_amalgamated.cpp:5713-5802 | one pass over the sections of a body is the next of the passes that are left in the state of the trackers, with its exceptions, and leaves the passes after it |
| RunPlans.SectionCloses | src/external/Catch2/catch_amalgamated.cpp:6744-6779 | ending the current section completes it if it executed or all its children are complete, or fails it and marks its parent if it was the first one unwound; every other tracker keeps its state |
| RunPlans.CyclesFollowPlan | src/external/Catch2/catch_amalgamated.cpp:5634-5651 | whatever the bodies throw, after k cycles exactly the sections of the first k passes of the plan were entered in order, and the test case is complete exactly when k is the number of passes |
| RunPlans.StopsAfterPlan | src/external/Catch2/catch_amalgamated.cpp:5651 | a loop that stops when the test case completes has made exactly the passes of the plan |
| ReachedLeaves.PlanEntersReachedLeaves | src/external/Catch2/catch_amalgamated.cpp:5634-5651 | the plan enters each leaf that the body lets be reached exactly once, and no other leaf: sections inside one that ends in a throw are run only until one of them comes to its end |
| ReachedLeaves.AllAreReached | src/external/Catch2/catch_amalgamated.cpp:5793-5802 | every leaf is reached where no section with sections inside ends in a throw |
| SectionTracker.LeavesEntered | src/external/Catch2/catch_amalgamated.cpp:5634-5651 | both together, for all leaves of a test case |
| FieldInfo.RoundTrip | src/external/nanopb/pb.h:753-791 | for every field the assertions accept, at every width, decoding returns it if and only if its type has eight bits, a one-word field has array size 1, and a wide field has a size offset below 128 |
| FieldInfo.AssertionsAreNeeded | src/external/nanopb/pb.h:778-783 | at widths 1 and 2 a field of an eight-bit type comes back if and only if the assertions accept it and a one-word field has array size 1: they refuse nothing that would work |
| FieldInfo.FirstWord | src/external/nanopb/pb.h:753-769 | the first word tells the low six tag bits and the type at every width |
| FieldInfo.WidthSurvives | src/external/nanopb/pb.h:753-769 | the low two bits tell the width, whatever the field |
| FieldInfo.TypeIsByte | src/external/nanopb/pb_common.c:17 | any decoded type has eight bits |
| FieldIterator.ComposedTypes | src/external/nanopb/pb.h:528-561 | of the three parts the generated code makes a type of, the low four bits alone tell extensions (10) and submessages (8, 9), and the repetition part alone tells required fields (0) |
| FieldIterator.FieldAt | src/external/nanopb/pb.h:498-524 | at the offset of the i-th field a bound descriptor holds exactly that field |
| FieldIterator.StepFrom | src/external/nanopb/pb_common.c:135-153 | the word length, required flag and submessage flag of the first word lead to the indices of the next field, without 16-bit overflow |
| FieldIterator.NoTagAboveLargest | src/external/nanopb/pb_common.c:201-204 | a tag above the largest belongs to no field |
| FieldIterator.PassedAll | src/external/nanopb/pb_common.c:205-243 | a search back at its start, restarted or wrapped, has passed every field that could match |
| FieldIterator.FieldIter.LoadDescriptorValues | src/external/nanopb/pb_common.c:8-120 | the decoded values are those of the field the indices stand on; past the end nothing changes |
| FieldIterator.FieldIter.AdvanceIterator | src/external/nanopb/pb_common.c:122-154 | the four indices keep agreeing with the plain list, wrapping to the first field |
| FieldIterator.FieldIter.Begin | src/external/nanopb/pb_common.c:156-164 | on the first field, or false and blank when there is none |
| FieldIterator.FieldIter.Next | src/external/nanopb/pb_common.c:188-193 | on the next field of the list, false exactly when it wraps |
| FieldIterator.FieldIter.TryNext | src/external/nanopb/pb_common.c:221-240 | the six-bit check loses no match: a hit exactly when the next field has the tag and is no extension |
| FieldIterator.FieldIter.Search | src/external/nanopb/pb_common.c:205-243 | from anywhere, found exactly when a non-extension field has the tag, then standing on it; otherwise back where it was |
| FieldIterator.FieldIter.Find | src/external/nanopb/pb_common.c:195-244 | succeeds exactly when the iterator stood on the tag or a field has it whose type is not 10 modulo 16; on failure every index and decoded value is as before |
| FieldIterator.FieldIter.FindExtension | src/external/nanopb/pb_common.c:246-275 | succeeds, on a field whose type is 10 modulo 16, exactly when there is one; otherwise unchanged |
| Utf8.Validate | src/external/nanopb/pb_common.c:334-385 | accepts a NUL-terminated string if and only if it is the UTF-8 encoding of nonzero scalar values other than U+FFFE and U+FFFF, and reads nothing past the NUL |
| Utf8.EncodingsPass | src/external/nanopb/pb_common.c:339-380 | the encoding of every accepted value passes the branch for its length |
| Utf8.PassHead | src/external/nanopb/pb_common.c:339-380 | a head that passes a branch can be dropped without changing whether the string is valid |
| Utf8.HeadOfUtf8Passes | src/external/nanopb/pb_common.c:339-380 | every nonempty valid string begins with a head that passes |
| Utf8.Encode | src/external/nanopb/pb_common.c:339-380 | one to four bytes |
| BitStream.Stream.ReadBits | src/external/bcdec/bcdec.h:366-377 | returns the next n bits of the 128-bit block and leaves the rest in the two words, for 1 <= n <= 31 |
| BitStream.Stream.ReadBitsReversed | src/external/bcdec/bcdec.h:385-395 | the same bits in opposite order |
| BitStream.ReverseBits | src/external/bcdec/bcdec.h:388-393 | the loop computes the reversal |
| BitStream.ReadRefines | src/external/bcdec/bcdec.h:366-377 | on the two words a read takes V mod 2^n and leaves V div 2^n of the number V they stand for |
| BitStream.ReadsReassemble | src/external/bcdec/bcdec.h:366-377 | values read with any widths, put back together, are V modulo 2 to the total, and what is left is V divided by it |
| Bits.ShiftRightIsQuotient | src/external/bcdec/bcdec.h:366-377 | shifting right n bits divides by 2^n and the low n bits are the remainder |
| Bits.ReversedBits | src/external/bcdec/bcdec.h:385-395 | bit k of the reversal is bit n - 1 - k |
| Partitions.Bc7Shape | src/external/bcdec/bcdec.h:1088-1221 | every entry of both tables has subsets in range and exactly one anchor texel in each subset |
| Partitions.Bc6hShape | src/external/bcdec/bcdec.h:557-590 | the same for the BC6H table |
| PartitionMasks.ShapeByMask | src/external/bcdec/bcdec.h:1088-1221 | every texel of every shape is in the subset that a 16-bit mask, or a 32-bit one of two bits a texel, gives it, and the anchors are the first texel and those listed for the shape |
| PartitionMasks.Bc6hSubsetsAreBc7 | src/external/bcdec/bcdec.h:557-590 | the 32 shapes of BC6H are the first 32 of BC7 |
| PartitionMasks.Bc6hShapeByMask | src/external/bcdec/bcdec.h:557-590 | so the same masks give their subsets and anchors |
| BlockIndices.ShapeIndexTotal | src/external/bcdec/bcdec.h:1363-1376 | whatever the partition, the indices take 16 times their width less one bit for each subset |
| BlockIndices.InterpolateBetween | src/external/bcdec/bcdec.h:498-500 | the blend lies between its ends and meets both |
| BlockIndices.InterpolateIsNearest | src/external/bcdec/bcdec.h:498-500 | the blend is the whole number nearest to the weighted mean, the upper one halfway between two |
| BlockIndices.Weight | src/external/bcdec/bcdec.h:1223-1225 | every index that fits its width selects a weight of at most 64 |
| BlockIndices.WeightIsRounded | src/external/bcdec/bcdec.h:1223-1225 | each weight is 64 times the index over the largest index, rounded to the nearest number, in all three tables |
| BlockIndices.AnchorBitIsRedundant | src/external/bcdec/bcdec.h:1033-1039 | exchanging the endpoints and complementing the index blends the same value, and exactly one of the two indices has its top bit clear |
| Bc7.DecodeBlock | src/external/bcdec/bcdec.h:1079-1429 | over all 2^128 blocks: exactly 128 bits are read in every valid mode and each texel is the one the bit layout prescribes, channel c being the blend of both endpoints' channel that the rotation puts there, by the index that channel uses; transparent black and 8 bits otherwise |
| Bc7.ReadMode | src/external/bcdec/bcdec.h:1243 | the mode is the number of zero bits before the first one |
| Bc7.ReadChoices | src/external/bcdec/bcdec.h:1260-1279 | partition, rotation and index selection bit come from their places in the block |
| Bc7.ReadEndpoints | src/external/bcdec/bcdec.h:1281-1293 | each stored channel comes from its place in the block |
| Bc7.InsertPBits | src/external/bcdec/bcdec.h:1296-1325 | every channel is doubled plus its p-bit, shared by a subset in mode 1 and by the channels of an endpoint elsewhere |
| Bc7.ExpandEndpoints | src/external/bcdec/bcdec.h:1327-1353 | every channel is expanded at its precision, alpha is 255 where none is stored |
| Bc7.DecodeEndpoints | src/external/bcdec/bcdec.h:1281-1353 | the endpoints are those the layout prescribes |
| Bc7.ReadIndices | src/external/bcdec/bcdec.h:1362-1376 | each index comes from its place, one bit shorter at every anchor |
| Bc7.BlendTexel | src/external/bcdec/bcdec.h:1386-1420 | second index, blend and channel exchange give the texel the layout prescribes |
| Bc7.BlendTexels | src/external/bcdec/bcdec.h:1378-1429 | all sixteen texels are, with the second indices used up |
| Bc7Format.ModeFillsBlock | src/external/bcdec/bcdec.h:1243-1392 | header, endpoints, p-bits and both index sets add up to 128 bits in all eight modes |
| Bc7Format.ModeIsLeadingZeros | src/external/bcdec/bcdec.h:1243 | a number is the mode if and only if zero bits come before it and a one follows |
| Bc7Format.EndpointIsByte | src/external/bcdec/bcdec.h:1327-1353 | expansion stays in 0..255 and keeps what was stored on top |
| Bc7Format.ExpandFits | src/external/bcdec/bcdec.h:1331-1344 | expansion of j bits is a byte whose top j bits they are and whose other bits repeat the highest of them |
| Bc7Format.TexelInRange | src/external/bcdec/bcdec.h:1383-1426 | whatever the block, each texel fits its bytes and before rotation lies between its subset's two endpoints in every channel |
| Bc7Format.RotateTwice | src/external/bcdec/bcdec.h:1410-1420 | the exchange is its own inverse and keeps bytes |
| Bc7Format.RotateByChannel | src/external/bcdec/bcdec.h:1410-1420 | by channel number: rotation k puts channel k - 1 into alpha and alpha into channel k - 1, and no rotation moves another channel |
| Bc7Format.BlendedByChannel | src/external/bcdec/bcdec.h:1390-1408 | colors are blended by the first index and alpha by the second, or the other way round if the index selection bit is set, each between the two endpoints of the texel's subset in the same channel |
| Bc7Format.TexelByChannel | src/external/bcdec/bcdec.h:1386-1426 | each channel of a decoded texel is the blend of the endpoint channel that the rotation exchanges it with |
| Bc7Format.PartsInPlace | src/external/bcdec/bcdec.h:1243-1392 | partition, rotation, index selection bit, reds, greens, blues, alphas, p-bits and both index sets begin at the listed bits in all eight modes |
| Bc6h.DecodeBlock | src/external/bcdec/bcdec.h:546-1054 | over all blocks, signed or not: exactly 128 bits are read in every valid mode and each color is the one the format prescribes, with its mode told by arithmetic on the code and every endpoint bit read from its listed place in the block; black for reserved modes |
| Bc6h.ReadMode | src/external/bcdec/bcdec.h:610-613 | two low bits of 0 or 1 are the mode; 2 is followed by three bits to be added to 2, 3 by three bits to be added to 10, of which 4 and above are reserved; two or five bits are read |
| Bc6h.CodesAreModes | src/external/bcdec/bcdec.h:618-977 | the cases of the switch on the code are that arithmetic, for every block |
| Bc6h.ReadEndpoints | src/external/bcdec/bcdec.h:618-974 | in every mode, each bit of each endpoint comes from its listed place in the block |
| Bc6h.ReadEndpointFields | src/external/bcdec/bcdec.h:618-974 | reading the fields in order gathers each endpoint's scattered bits |
| Bc6hPlaces.BitsInPlace | src/external/bcdec/bcdec.h:618-974 | in all 14 modes every stored bit is read from the bit of the block that the table of places lists for it: w at 5, 15, 25, x at 35, 45, 55, y and z of the other subset at 41, 51, 61, 65, 71, and each remaining bit one by one |
| Bc6hPlaces.FieldsInPlace | src/external/bcdec/bcdec.h:618-974 | so the fields read one after the other yield the numbers put together from those places |
| Bc6h.ExtendSigns | src/external/bcdec/bcdec.h:997-1012 | first endpoints are extended when signed, deltas always |
| Bc6h.InvertTransform | src/external/bcdec/bcdec.h:1014-1020 | deltas become endpoints in every mode that has deltas |
| Bc6h.UnquantizeEndpoints | src/external/bcdec/bcdec.h:1022-1026 | every endpoint in use is unquantized at the precision of the first |
| Bc6h.BlendTexel | src/external/bcdec/bcdec.h:1031-1050 | index and blend give the color the layout prescribes |
| Bc6hLayout.LayoutFits | src/external/bcdec/bcdec.h:618-974 | in all 14 modes each stored bit of each endpoint is filled by exactly one read, and no other bit by any |
| Bc6hLayout.LayoutFills | src/external/bcdec/bcdec.h:618-974 | the endpoints take 75, 72 or 60 bits |
| Bc6hFields.ReadBack | src/external/bcdec/bcdec.h:618-974 | whatever endpoints that fit are written into the fields of a mode, reading returns them |
| Bc6hFields.WriteBack | src/external/bcdec/bcdec.h:618-974 | whatever block is read, its endpoints fit, and writing them yields the same bits: the layout is a bijection |
| Bc6hFields.GatherBit | src/external/bcdec/bcdec.h:618-974 | a bit filled once is the block's bit at its place |
| Bc6hColors.ExtendSignMeans | src/external/bcdec/bcdec.h:445-447 | the two 32-bit shifts yield the one number of the signed range with the same low bits |
| Bc6hColors.TransformInverseMeans | src/external/bcdec/bcdec.h:449-458 | the result is in range and congruent to delta plus first endpoint |
| Bc6hColors.DeltaRestores | src/external/bcdec/bcdec.h:449-458 | an endpoint is restored if and only if the delta is congruent to its distance from the first |
| Bc6hColors.DeltaRoundTrip | src/external/bcdec/bcdec.h:1007-1020 | any endpoint within reach of the first survives storing its difference in the delta bits |
| Bc6hColors.UnquantizeFits | src/external/bcdec/bcdec.h:460-496 | 0..0xFFFF unsigned; signed within 0x7FFF except that 16 bits pass -0x8000 through |
| Bc6hColors.UnquantizeMonotone | src/external/bcdec/bcdec.h:460-496 | the order of colors is kept |
| Bc6hColors.UnquantizeIsMiddle | src/external/bcdec/bcdec.h:466-486 | between its ends, the result is the middle of the 16-bit numbers that begin with the stored bits |
| Bc6hColors.UnquantizeEnds | src/external/bcdec/bcdec.h:460-496 | zero stays zero, the largest stored number becomes 0xFFFF or 0x7FFF, both lowest signed ones -0x7FFF, and sixteen bits are kept |
| Bc6hColors.QuantizeBack | src/external/bcdec/bcdec.h:460-496 | the stored value is the top bits of the result, if and only if it is not the lowest signed one of fewer than 16 bits |
| Bc6hColors.FinishEnds | src/external/bcdec/bcdec.h:502-516 | the largest colors become 0x7BFF, zero stays zero, and a changed sign changes only the sign |
| Bc6hColors.FinishIsLargest | src/external/bcdec/bcdec.h:502-516 | the half is the largest number not above 31/64 of an unsigned color or 31/32 of the magnitude of a signed one, whose sign it keeps unless it is zero |
| Bc6hColors.FinishFits | src/external/bcdec/bcdec.h:502-516 | unsigned halves are at most 0x7BFF; a signed one is finite if and only if its value is not -0x8000 |
| Bc6hColors.FinishMonotone | src/external/bcdec/bcdec.h:502-516 | the order of colors is kept in half precision |
| Bc6hFormat.ModeFillsBlock | src/external/bcdec/bcdec.h:610-1040 | code, endpoints, partition and indices add up to 128 bits in all 14 modes |
| Bc6hFormat.PartsInPlace | src/external/bcdec/bcdec.h:1031-1040 | the partition is at bit 77 and the indices at bit 82 with two subsets, the indices at bit 65 with one |
| Bc6hFormat.TransformedIsNarrower | src/external/bcdec/bcdec.h:1007-1020 | the modes with deltas are those that store fewer bits for the other endpoints than for the first, in every channel |
| Bc6hFormat.EndpointInRange | src/external/bcdec/bcdec.h:997-1026 | every endpoint in use is in range, through deltas, sign extension and unquantization |
| Bc6hFormat.HalfInRange | src/external/bcdec/bcdec.h:997-1053 | for every block, unsigned halves are never negative, infinite or NaN, and every half lies between those of its two endpoints |
| Bc6hFormat.HalfIsFinite | src/external/bcdec/bcdec.h:997-1053 | a half is finite if and only if the block is not signed in the 16-bit mode with endpoints so near the lowest number that their blend rounds to it |
| Bc6hFormat.LowestColor | src/external/bcdec/bcdec.h:475 | a signed 16-bit first endpoint of 0x8000 with index 0 decodes to negative infinity |
| Bc6hFormat.LowestBlock | src/external/bcdec/bcdec.h:475 | there is a block that does so |

## Left out

- Solve: for entries closer together than eps, exact optimality fails in the code, which takes values below eps for zeros: NearTieIsMissed gives an input, OneRowCheapest the exact condition for a single row, and the bound of eps for each pair holds for every matrix. With several rows, being exact is proved from the entries lying on a grid no finer than eps, and no condition both necessary and sufficient is given.
- IEEE rounding, overflow of `nOfRows * nOfColumns`, the warning on `cerr`, and freeing of memory in the assignment solver.
- Matrices without rows, on which the source reads `DistMatrix[0]`.
- SectionEnded: requires that the close it performs is not an internal error; that no run leads to one is proved for RunTest. The same holds for SectionEndedEarly, Invoke, HandleUnfinishedSections, RunCurrentTest, RunCycle and Close.
- Section filters, generators, `aborting()`, reporters, assertion counts and messages in Catch2, and bodies that behave differently from one cycle to the next.
- Tracker objects with parent pointers: the trackers are a map from paths, so aliasing between trackers is not modelled.
- Sibling sections with the same name and location, which share one tracker in the source.
- The pointers `pField`, `pData` and `pSize`, field callbacks, `pb_field_iter_begin_extension` and the const variants of the nanopb iterator; `pb_encode.c` and `pb_decode.c` are not part of this model.
- The 32-bit configuration `PB_FIELD_32BIT` of nanopb.
- BC1 to BC5, the float variants and half-to-float conversion, and the destination pitch: a decoded block is a 4x4 array of texels.
- Finiteness of signed BC6H colors is not claimed in general: HalfIsFinite says exactly when it holds.
- jnipp, android-jni-wrap, the build scripts and the user interface code: foreign calls and input/output.
