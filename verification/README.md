# Memory gobbler: a verified model

The memory gobbler is a stress program for memory management. It runs a sequence of jobs. Each job is a phase:
a transition that maps files and anonymous memory and a holding loop that touches what the phase has mapped.
The project models this program, `mem_gobbler.c`, and proves what holds of every run of it, whatever the options,
the vector file, the random numbers and the clock are. The half-finished split of the program into
`alloc_manager.c`, `file_manager.c` and `pattern_manager.c` is modelled as the simpler machine that it is.

`dafny verify dfyconfig.toml` checks everything.

## Files

| file | what it holds |
|---|---|
| `page.dfy` | the size of a page |
| `samplers.dfy` | `rand_lim` and `rand_intr`, and that they are exactly fair |
| `visit.dfy` | one touch: of which mapping, and whether in a transition |
| `access.dfy` | a mapping as bytes, the touch, and the log of accesses that determines the contents |
| `patterns.dfy` | STRIDE, SEQUENTIAL, REPEAT and RANDOM over one mapping |
| `fix.dfy` | FIX and its linked list |
| `pool.dfy` | the pool of files and the search in it |
| `machine.dfy` | the phase allocator as a state machine over values |
| `accounting.dfy` | what every step of the machine keeps |
| `phase.dfy` | what one phase does with its budget, its types and its row of the tracker |
| `run.dfy` | whole runs |
| `limit.dfy` | when a run can pass the limit on pages, and when a phase can fill its row, exactly |
| `requests.dfy` | the requests of a run in their order, and what one that fails says of the later ones |
| `single.dfy` | the machine of the split files, which the full one refines when all budgets are one page |
| `holding.dfy` | the order and the end of the holding loop |
| `touches.dfy` | which mappings a run touches, and how often |
| `memory.dfy` | all the mappings of a run, and what many touches come to |
| `gobbler.dfy` | the program itself: a class with the global variables, one method per C function |

The class `Program.Gobbler` is the program in its own form. Each of its methods is proved to carry out one step of
the state machine of `machine.dfy` on the state that its variables stand for (`Abs`), and so all that is proved of
the machine holds of the program. Bytes change only through `Region.Touch` and `Region.Clear`; every pattern is
specified by the accesses that it appends to the log of its mapping.

## What is abstracted

- `rand()`: each sampler calls `srand` first, so one call of a sampler reads one stream of raw values from its start.
  The streams are parameters, labelled by who asks for the how-manieth time. Nothing is assumed of a stream but its
  range; and of those that `rand_lim` reads, that they do not stay in their upper half forever, without which its
  loop need not end.
  That calls within one second of the clock share a seed, and so a stream, is a hypothesis where it matters
  (`SameSecond`, `OneSeedTypes`, `OneSeedLength`).
- The clocks: the readings in the holding loop are a sequence of reals that reaches the execution time at some
  reading, and the wall-clock test that skips a job is a parameter.
- `mmap` yields a new region that shares no byte with another one. Its address is its index among the mappings.
- `PR_ERROR` and `exit` lead to the status `Exited`, after which nothing happens.
- The page size is 4096 both as a constant and as `sysconf` reports it, and products of `unsigned long` do not wrap.
- The files come from the generator: every size is a positive multiple of 4096. That the sizes ascend is used only
  where it is said.

## Where the code and its description differ

The model follows the code.

- The description of the program, its own README, says in lines 50-51 that a phase sometimes touches pages of older
  phases. It never does: `Program.Gobbler.Job`.
- The same description says in line 45 that there are three file mappings to one anonymous one; the comment at
  mem_gobbler.c:932-936 says the reverse. The ratio holds, to within four, at the end of all runs exactly when the
  run is precise or has no phase at all (`RatioIff`). Without precision as many requests of a phase are anonymous as
  are drawn so, but at most a quarter of all (`LooseCounts`). When the types of a phase are all drawn within one
  second it is either all of this quarter, at the beginning of the phase, or nothing (`SameSecond`,
  `SameSecondFirst`).
- The ten draws of a length all share a seed within one second, and then the retries change nothing (`PickSame`).
- The guard in `go_to_nxt_phase` lets the index reach the end of the tracker. The bound of `main` on the phases keeps
  every run inside exactly up to `-p 60001` (`OverrunIff`).
- A phase with `-M` above 500 can end the program, and only such a phase can (`CapacityIff`).
- The limit on pages is tested between phases only, so a run can pass it. How far depends on what a phase can take:
  2m - 1 pages under budgets of at most m by `-M` or a vector file; 18p without precision, and b - 1 + p for a budget
  of b without a byte cap, where p is the largest class. Under `-A` alone b is 150. A run keeps the limit for sure
  exactly when this is at least what all its phases can take (`LimitIff`, `LooseLimitIff`, `UncappedLimitIff`).
  Otherwise it passes it by no more than what one phase can take (`EveryCap`), and some runs do by just this much
  (`LimitReached`, `LooseLimitReached`, `UncappedLimitReached`).
- RANDOM never touches the last 11 bytes of a window, and its windows do not cover a half (`RandReach`).
- FIX on fewer than ten bytes can choose a byte outside the mapping, and on nine divides by zero (`ChoiceDone`). The
  program never does this, as every mapping is at least a page.
- First fit is best fit exactly for ascending sizes (`BestFitIffAscending`).

## Model

| member | source | states |
|---|---|---|
| `Samplers.RandLim` | mem_gobbler.c:455-467 | the retry loop ends for every limit from 1 to RAND_MAX - 1 and returns the quotient of the first draw that it accepts, which is below the limit |
| `Samplers.AcceptedBelow` | mem_gobbler.c:455-467 | a draw is accepted if and only if it is below limit times the divisor |
| `Samplers.LowHalfAccepted` | mem_gobbler.c:457-464 | every limit accepts the lower half of the raw range, so that a stream which reaches it ends the loop |
| `Samplers.LimFair` | mem_gobbler.c:455-467 | every value below the limit has exactly RAND_MAX / (limit + 1) raw values |
| `Samplers.LimAccepts` | mem_gobbler.c:455-467 | exactly limit times RAND_MAX / (limit + 1) raw values are accepted |
| `Samplers.LimReaches` | mem_gobbler.c:455-467 | every value below the limit is returned on some stream |
| `Samplers.LimFirst` | mem_gobbler.c:455-467 | the result of a call in raw values alone: the first one whose quotient by 2147483647 / (limit + 1) is below the limit decides |
| `Samplers.LimSymmetric` | mem_gobbler.c:455-467 | renaming the raw values, which is its own inverse, exchanges the results v and w of whole calls and keeps the draw that is kept: no result is favoured |
| `Samplers.RandIntr` | mem_gobbler.c:470-488 | the result is in [begin, end], also when the 128 retries run out, and comes from the first draw below the limit or else from the last of 129 |
| `Samplers.IntrFair` | mem_gobbler.c:470-488 | for ranges up to RAND_MAX every result has exactly RAND_MAX / range raw values below the limit |
| `Samplers.IntrSymmetric` | mem_gobbler.c:470-488 | renaming the raw values, which is its own inverse, turns every sequence of them that is kept for v into one that is kept for w after the same number of retries: no result is favoured in whole calls either |
| `Samplers.IntrExhausted` | mem_gobbler.c:473-487 | when all draws are rejected the result is among the lowest RAND_MAX % range + 1 values, which is where fairness ends |
| `Samplers.IntrFirst` | mem_gobbler.c:470-488 | the result of a call in raw values alone: the remainder of the first one below the largest multiple of the range, or of the one after 128 retries |
| `Access.ToggleParity` | mem_gobbler.c:489-508 | after n touches a byte depends only on whether it was 0x0f and on the parity of n |
| `Access.AfterAt` | mem_gobbler.c:489-508 | whatever the order of the touches of a mapping, each byte ends as toggled once per touch of it |
| `Access.Region.Touch` | mem_gobbler.c:489-508 | one touch appends one toggle to the log, and the bytes are what the log says |
| `Access.Region.Clear` | mem_gobbler.c:590 | writing 0x00 appends one clearing to the log, and the bytes are what the log says |
| `Patterns.PatternSeq` | mem_gobbler.c:649-660 | touches each byte once, in order, and nothing else |
| `Patterns.Piece` | mem_gobbler.c:615-630 | the halving ends at the largest of 1000, 500, 250, 125, 62, 31, 15, 7, 3, 1 that is at most the length |
| `Patterns.StrideIs` | mem_gobbler.c:615-630 | the stride is a thousandth of the length from 1000 bytes on, and below it is 1, but 2 for the lengths 2, 6, 14, 30 and 124 |
| `Patterns.StrideGetOffset` | mem_gobbler.c:615-630 | the loop ends for every length of at least 1 and yields the length divided by that piece count, at least 1 |
| `Patterns.StrideBounds` | mem_gobbler.c:615-647 | between piece and 2 * piece - 1 touches: never more than 1999, and at least 1000 from 1000 bytes on |
| `Patterns.PatternStride` | mem_gobbler.c:632-647 | touches 0, stride, 2 * stride, ... up to the length, in order, inside the mapping |
| `Patterns.StrideHits` | mem_gobbler.c:632-647 | a byte is touched once if it is a multiple of the stride below the length, and otherwise never |
| `Patterns.RepeatCount` | mem_gobbler.c:674-705 | 0 for distance 0, 2 from 1000 on, and in between the ceiling of (1000 - dist) / 200, from 1 to 5, through the real arithmetic of the CEIL macro |
| `Patterns.PatternRepeat` | mem_gobbler.c:707-722 | touches the bytes below the distance in order, as many rounds as the count says |
| `Patterns.RoundsHits` | mem_gobbler.c:707-722 | each byte below the distance is touched once per round, every other one never |
| `Patterns.RepeatContents` | mem_gobbler.c:489-508 | after REPEAT a byte below the distance depends only on what it was and on the parity of the count, every other byte is unchanged |
| `Patterns.RandomTouchPage` | mem_gobbler.c:724-738 | 50 runs of ten touches, or 2 in transition, each inside the window, at the indices that rand_lim returns on the streams of the attempts |
| `Patterns.RandomTouch` | mem_gobbler.c:740-768 | visits (h - 1) / 4096 windows of a half of h >= 8192 bytes and one window of a shorter half, in order, each with the draws of its own streams |
| `Patterns.PatternRand` | mem_gobbler.c:770-793 | 10 turns, or 2 in transition, over the lower and the upper half in alternation, with the draws that rand_lim makes on the streams of the call |
| `Patterns.RandTurn` | mem_gobbler.c:740-787 | a turn makes exactly windows times attempts times 10 touches, all of them reachable bytes of its own half |
| `Patterns.RandLength` | mem_gobbler.c:724-793 | one call makes 2500 touches, or 20 in transition, for each window of the lower half and each of the upper one |
| `Patterns.RandTouchAt` | mem_gobbler.c:724-793 | every touch of one call by its number: 10 turns, or 2 in transition, that alternate between the halves; in each the windows of 4096 bytes, or the one of h - 1000; in each 50 runs, or 2; in each ten bytes in a row from what rand_lim returns below the length of the window less 20 |
| `Patterns.RandOnly` | mem_gobbler.c:770-793 | any number of turns touches reachable bytes only and clears none |
| `Patterns.ReachableInside` | mem_gobbler.c:724-768 | a reachable byte lies in its half, at least 12 bytes before its end |
| `Patterns.DrawsReached` | mem_gobbler.c:724-793 | whatever indices are within bounds, some streams make rand_lim return just these in one call |
| `Patterns.RandReach` | mem_gobbler.c:724-793 | on some streams one call touches byte k if and only if k lies in a window of either half, at least 12 bytes before the end of the window |
| `Fix.FixLocInside` | mem_gobbler.c:579-591 | in 64-bit arithmetic the chosen byte is inside the mapping if and only if this has ten bytes or the last of 129 draws is below its length, and is then that draw |
| `Fix.ChoiceDone` | mem_gobbler.c:579-591 | the choice of a byte ends well from ten bytes on; below, never for nine, where it divides by zero, and otherwise exactly when the last draw is below the length |
| `Fix.FixContents` | mem_gobbler.c:489-613 | after n >= 1 calls only the chosen byte has changed: 0x00 for odd n, 0x0f for even n |
| `Fix.FixList.constructor` | mem_gobbler.c:549 | an empty list stands for the empty map |
| `Fix.FixList.FixExists` | mem_gobbler.c:551-565 | finds the node of an address if and only if there is one, in a list that is acyclic and has no address twice |
| `Fix.FixList.FixAllocNode` | mem_gobbler.c:567-577 | a new node at the head; the list then stands for the map with the address added at location 0 |
| `Fix.FixList.FixRandLoc` | mem_gobbler.c:579-591 | for every length: sets the location to the one that rand_intr gives and clears that byte, or strays out of the mapping, or dies on nine bytes |
| `Fix.FixList.PatternFix` | mem_gobbler.c:593-613 | for every length: the first call on a mapping adds it to the map and clears the byte, if the choice ends well; a later one leaves the map as it is and toggles the same byte; a length of 0 does nothing |
| `Fix.FixList.PatternFixBase` | pattern_manager.c:61-77 | the variant of the split files keeps the same list but always touches the first byte, and exits on a length of 0 |
| `Pool.FileList.constructor` | file_gen/file_gen.sh:94-114 | any list of sizes with one terminated array of paths each is a well-formed pool, with no class marked as filled |
| `Pool.FileList.FindAvailNode` | mem_gobbler.c:815-831 | the first node of a class that is not in use, or none if all are |
| `Pool.FileList.GetFilePath` | mem_gobbler.c:833-854 | the search from class 0: the node, the length of its class, and the marks on the classes that were full |
| `Pool.GetFrom` | file_manager.c:49-70 | stops at the first class that is big enough and not full, at its first free node; marks as filled exactly the big enough classes before it, which are full |
| `Pool.FailsIffFull` | mem_gobbler.c:833-854 | the search fails if and only if every class that is big enough is full |
| `Pool.BestFitIffAscending` | mem_gobbler.c:838 | first fit is smallest fit, whatever is in use, if and only if the sizes ascend |
| `Pool.FailsForever` | mem_gobbler.c:833-854 | a length that could not be served is never served later, nor is a greater one |
| `Pool.FileList.Mark` | mem_gobbler.c:1139-1140 | marks one node as in use and no other |
| `Phase.PickFirst` | mem_gobbler.c:967-977 | the class is that of the first of ten draws whose size is within the limit, or else that of the tenth |
| `Phase.PickFits` | mem_gobbler.c:967-977 | ten draws end within the limit if and only if one of them is within it |
| `Phase.PickSame` | mem_gobbler.c:967-977 | ten draws from one seed end on the first, whatever its size |
| `Phase.LengthInLimit` | mem_gobbler.c:961-981 | the length asked for is within the page limit if and only if one of the ten draws is, or else the limit is exactly class 0 |
| `Phase.LengthDrawn` | mem_gobbler.c:961-981 | the length asked for, draw by draw: class 0 if the page limit is no greater, and else the class of the first of ten draws within the limit, or of the tenth |
| `Accounting.EachFileOnce` | mem_gobbler.c:1115-1144 | no two mappings of a run are on the same file |
| `Accounting.InUsePrefix` | mem_gobbler.c:815-831 | the nodes in use of a class are a prefix of its list, as long as the number of mappings on the class |
| `Accounting.FilesAreNodes` | mem_gobbler.c:1115-1144 | the file mappings over all phases are as many as the nodes in use over all classes |
| `Accounting.EndedFiles` | mem_gobbler.c:1139-1144 | when a full row has ended the program still no file is mapped twice, and at most one file mapping is not a node in use |
| `Accounting.HandedOutProbe` | mem_gobbler.c:833-854 | a search keeps this, and the node it finds is the next one of its class |
| `Accounting.TrackedSnoc` | mem_gobbler.c:881-895 | adding an entry keeps the tracker a list of all mappings, each once and in order |
| `Accounting.PlaceInv` | mem_gobbler.c:1115-1144 | mapping, entry, counters and mark keep the whole invariant; or the program ends with the counters still exact and one last mapping that is neither tracked nor marked |
| `Accounting.RequestInv` | mem_gobbler.c:1115-1157 | every request keeps the invariant: files once and in order, counters equal to the sums over the tracker, sizes whole pages |
| `Accounting.TransInv` | mem_gobbler.c:1184-1195 | so does every loop of a transition |
| `Accounting.PhaseInv` | mem_gobbler.c:1162-1202 | and every phase |
| `Phase.RequestSteps` | mem_gobbler.c:1115-1157 | what one request adds: one mapping of the decided type, its pages and its entry, or nothing but the type counter; earlier entries, other phases and files in use stay |
| `Phase.TransLater` | mem_gobbler.c:1184-1195 | a transition gives nothing back and touches no row but its own |
| `Phase.ServedLength` | mem_gobbler.c:833-854 | for ascending sizes a request fails if and only if it is for a file and none fits; it is served with the smallest class that fits, at the size of the class, or at the byte cap if there is one and it is smaller |
| `Phase.RequestExactly` | mem_gobbler.c:1093-1157 | every request, for any sizes: when it is anonymous and when it fails; the length of its mapping, which is what is wanted unless a byte cap is smaller, and then the cap; its pages in the counters; its entry in the row, or the end of the program from 500 entries on |
| `Phase.BudgetSpent` | mem_gobbler.c:1146-1154 | pages and failed requests together reach the budget and pass it by less than the largest allocation |
| `Phase.CapHolds` | mem_gobbler.c:1109-1110 | with a byte cap of m pages no mapping of a phase is larger than m pages |
| `Phase.PreciseRatio` | mem_gobbler.c:939-959 | with precision N requests contain exactly (N - 1) / 4 anonymous ones, and these were all served |
| `Phase.ThreeToOne` | mem_gobbler.c:932-937 | the counts are three file requests to one anonymous one, to within four |
| `Phase.SliceBound` | mem_gobbler.c:1172-1195 | without precision a phase makes exactly its number of requests, and the slice bounds the anonymous ones |
| `Phase.SliceExactly` | mem_gobbler.c:939-959 | without precision the anonymous requests are as many as were drawn so, up to the slice |
| `Phase.SameSecond` | mem_gobbler.c:939-959 | if the type draws of one phase share a seed the slice is used up entirely or not at all |
| `Phase.SameSecondFirst` | mem_gobbler.c:939-959 | and if it is, by the first requests of the phase |
| `Phase.PhaseCapacity` | mem_gobbler.c:881-888 | entries and failed requests never exceed the budget, so that a budget which fits the row never ends the program |
| `WholeRun.PhaseLater` | mem_gobbler.c:1162-1202 | a phase moves the index by one and leaves finished phases, files in use and precision as they were |
| `WholeRun.RunLater` | mem_gobbler.c:1416-1453 | finished phases never change over a whole run, nothing is given back, precision once set stays |
| `WholeRun.NeverAgain` | mem_gobbler.c:833-854 | a length for which there is no file before some job has none at the end of the run, nor has a greater one |
| `Requests.RunChain` | mem_gobbler.c:1115-1157 | the requests of a run are as many as the type counter moves by, and each finds the pool that the ones before it have left |
| `Requests.NeverServedAgain` | mem_gobbler.c:833-854 | once a request for a file of some length has failed, every later one for this length or a greater one fails, in the same phase and in all later ones |
| `WholeRun.TurnKeeps` | mem_gobbler.c:1416-1453 | each turn of the loop of main keeps the invariant, and the index stays one behind the phases counted |
| `WholeRun.RunSafe` | mem_gobbler.c:1416-1453 | every run that has not ended inside a phase ends in a state with the invariant, and with -p up to MAX_ALLOC + 1 it never leaves the tracker |
| `WholeRun.RunLength` | mem_gobbler.c:1416-1453 | a run whose jobs are not skipped goes on until the limit is passed or the phases are through |
| `WholeRun.IdleOverruns` | mem_gobbler.c:864-871 | phases that allocate nothing drive the index off the tracker if -p allows it |
| `WholeRun.OverrunIff` | mem_gobbler.c:864-871 | no run ever leaves the tracker if and only if -p is at most MAX_ALLOC + 1 |
| `WholeRun.PhaseBudget` | mem_gobbler.c:1162-1202 | M <= P + f <= M - 1 + p for a precise phase of budget M with P pages, f failed requests and largest mapping p |
| `WholeRun.PhaseCap` | mem_gobbler.c:1109-1110 | with the byte cap a phase of budget M allocates at most 2M - 1 pages |
| `WholeRun.RunCap` | mem_gobbler.c:1437-1448 | a run under budgets of at most M, by option or vector file, ends with at most max_limit + 2M - 1 pages |
| `WholeRun.LooseCounts` | mem_gobbler.c:1172-1195 | without precision a phase makes exactly the 5 to 18 requests drawn for it, as many of them anonymous as were drawn so but at most a quarter, and never fills its row |
| `WholeRun.LooseRunCap` | mem_gobbler.c:1437-1448 | a run without precision ends with at most max_limit plus 18 times the largest class |
| `WholeRun.PhaseRow` | mem_gobbler.c:881-895 | the row of a phase lists exactly the mappings made in the phase, in order |
| `WholeRun.RunRatio` | mem_gobbler.c:939-959 | over a whole precise run exactly (N - 1) / 4 of the N requests were anonymous and served, three to one to within four |
| `WholeRun.RatioIff` | mem_gobbler.c:932-959 | three to one to within four holds at the end of every run if and only if the run is precise, by option or vector file, or has no phase |
| `WholeRun.UncappedRunCap` | mem_gobbler.c:1356-1360 | under -A alone, precise without a byte cap, a run ends with at most max_limit + budget - 1 plus the largest class |
| `Limits.FillsRow` | mem_gobbler.c:1142-1144 | enough one-page requests run the row full and end the program |
| `Limits.CapacityIff` | mem_gobbler.c:881-888 | a phase of budget m never ends the program if and only if m is at most 500 |
| `Limits.ServedStep` | mem_gobbler.c:1115-1157 | a request for b pages gets them from the class of b pages while there are files, and the invariant holds after it |
| `Limits.RunSum` | mem_gobbler.c:1416-1453 | under budgets of at most m a run takes at most 2m - 1 pages for each phase that -p and the tracker let it have |
| `Limits.LooseRunSum` | mem_gobbler.c:1416-1453 | without precision at most 18 times the largest class for each |
| `Limits.UncappedRunSum` | mem_gobbler.c:1416-1453 | without a byte cap at most the budget less one plus the largest class for each |
| `Limits.PlanLoop` | mem_gobbler.c:1184-1195 | a phase whose requests are drawn after a plan that uses up its budget takes just the pages of the plan and ends well |
| `Limits.PlanRun` | mem_gobbler.c:1416-1453 | a run whose phases all follow one plan takes the pages of the plan in each, until the limit is passed or the phases are through |
| `Limits.LimitIff` | mem_gobbler.c:1437-1448 | for every m >= 1, no run with -p P under budgets of at most m pages ends above a limit L if and only if L is at least 2m - 1 times the most phases it can have, which is P - 1 but at most MAX_ALLOC |
| `Limits.LimitReached` | mem_gobbler.c:1437-1448 | for every m >= 1 and every limit j(2m - 1) with 1 <= j < MAX_ALLOC some run ends with exactly limit + 2m - 1 pages |
| `Limits.LooseLimitIff` | mem_gobbler.c:1437-1448 | without precision and with classes of at most p pages, no run ends above L if and only if L is at least 18p times the most phases |
| `Limits.LooseLimitReached` | mem_gobbler.c:1437-1448 | for every limit 18pj with 1 <= j < MAX_ALLOC some such run ends with exactly limit + 18p pages |
| `Limits.UncappedLimitIff` | mem_gobbler.c:1356-1360 | with a budget of b without a byte cap and classes of at most p pages, no run ends above L if and only if L is at least b - 1 + p times the most phases, for b - 1 <= 499p |
| `Limits.UncappedLimitReached` | mem_gobbler.c:1356-1360 | for every limit j(b - 1 + p) with 1 <= j < MAX_ALLOC some such run ends with exactly limit + b - 1 + p pages |
| `WholeRun.EveryCap` | mem_gobbler.c:1437-1448 | from the initial state, the caps at the end of every run: under -M or a vector file, under -A alone, and without precision |
| `WholeRun.EveryRun` | mem_gobbler.c:1416-1453 | every run from the initial state, however it ends: exact counters, finished phases unchanged, no file mapped twice, file mappings as many as nodes in use or, after an exit, at most one more; and the invariant if it has not ended inside a phase |
| `Single.OneRequest` | alloc_manager.c:234-245 | with a budget of one page a phase makes exactly one request and is the step of the split machine, except that it survives a request that fails |
| `Single.IpfvtRefines` | alloc_manager.c:197-245 | over any number of one-page phases both machines go through the same states while no request of the split one fails |
| `Single.IpfvtPhases` | mem_gobbler.c:328-331 | the loop of main over a vector file of ones runs some number of one-page phases and nothing else, whatever jobs are skipped |
| `Single.IpfvtRun` | alloc_manager.c:197-245 | so a whole IPFVT run of the full program is the run of the split machine on the lengths it draws, while no request of the latter fails |
| `Single.OnePageLimit` | alloc_manager.c:92-112 | under the one-page limit of the split machine every length is that of class 0 |
| `Holding.CountdownIs` | mem_gobbler.c:1211-1224 | the index after n turns is L - n % (L + 1) |
| `Holding.HoldFair` | mem_gobbler.c:1204-1231 | n turns over L entries touch entry k exactly n / (L + 1) times, and once more if L - 1 - k < n % (L + 1) |
| `Holding.HoldWithin` | mem_gobbler.c:1217-1220 | no entry outside the phase is touched |
| `Holding.TimedStep` | mem_gobbler.c:1226-1228 | the time run is always the latest clock reading minus the first, and the loop ends at the first reading that reaches the execution time |
| `Holding.RunsForUnique` | mem_gobbler.c:1213 | the clock determines the number of turns |
| `Memory.Mappings.Mmap` | mem_gobbler.c:1053-1091 | a new region of the size asked for; the others keep their contents |
| `Memory.Mappings.Touch` | mem_gobbler.c:795-801 | one touch of one mapping by the pattern in use appends the accesses that its streams and the flag of the transition determine; no other mapping changes |
| `Memory.Mappings.TouchFix` | mem_gobbler.c:593-613 | under FIX, with the location that is chosen at the first touch and kept from then on |
| `Memory.FixRun` | mem_gobbler.c:549-613 | a mapping with n >= 1 accesses has changed in one byte only, by the parity of n |
| `Memory.OneMoreTouch` | mem_gobbler.c:1000-1014 | many touches of a mapping: under STRIDE, SEQUENTIAL and REPEAT each byte as often as one touch does times their number; under RANDOM reachable bytes only, 20 for each window and touch in a transition and 2500 in holding; under FIX one access each |
| `Memory.PerTouchIs` | mem_gobbler.c:615-722 | what one touch of a mapping does to each byte, in numbers: STRIDE touches the multiples of a thousandth of the length, SEQUENTIAL every byte, REPEAT the bytes below that thousandth 1 to 5 times |
| `Memory.FixPlace` | mem_gobbler.c:579-613 | under FIX the byte is the one that rand_intr draws at the first touch of the mapping |
| `Memory.SteadyContents` | mem_gobbler.c:489-508 | the contents after n touches, byte by byte |
| `Program.OracleOf` | mem_gobbler.c:455-488 | what the samplers return is within what the machine takes for granted of its oracle |
| `WholeRun.SameRun` | mem_gobbler.c:1416-1453 | the answers of the samplers and the wall clock determine a run |
| `Program.EveryOracle` | mem_gobbler.c:455-488 | no oracle is beyond the samplers: on some streams and clocks they answer just as it does, with any loops from 0 to 2 for each phase and any number of turns for each job, so that every run of the machine is one of the program |
| `Program.TypeDrawn` | mem_gobbler.c:951-952 | the type from raw values: the first one below 1431655764 is for a file if it is below 715827882 and anonymous otherwise |
| `Program.ClassDrawn` | mem_gobbler.c:971-972 | each of the ten classes from raw values: the remainder of the first one below the largest multiple of the number of classes, or of the 129th |
| `Program.CountDrawn` | mem_gobbler.c:983-993 | the number of requests of a phase from raw values: 5 and the remainder modulo 14 |
| `Program.LoopsDrawn` | mem_gobbler.c:1166 | the loops of a phase from raw values: the first one below 1610612733 divided by 536870911 |
| `Program.TurnsExactly` | mem_gobbler.c:1204-1231 | a job has n turns of holding if and only if the n-th reading of its clock is the first that is the execution time or more after the one before the loop |
| `Program.OneSeedTypes` | mem_gobbler.c:455-467 | any number of type draws in a row within one second are all equal |
| `Program.OneSeedLength` | mem_gobbler.c:961-981 | length draws within one second end on the first |
| `Program.Gobbler.constructor` | mem_gobbler.c:158-213 | the initial variables, in memory of their own, stand for the initial state of the machine |
| `Program.Gobbler.ResetMaxAllocPerPhase` | mem_gobbler.c:300-305 | budget, precision and byte cap are set, nothing else |
| `Program.Gobbler.SetPrecise` | mem_gobbler.c:1356-1360 | precision is set, nothing else |
| `Program.Gobbler.RandomizeAllocType` | mem_gobbler.c:939-959 | the type of the machine, from the counter, the slice and rand_lim |
| `Program.Gobbler.DrawClass` | mem_gobbler.c:967-977 | the retry loop ends on the class that the machine picks |
| `Program.Gobbler.RandomizeAllocLen` | mem_gobbler.c:961-981 | the length of the machine, at least a page |
| `Program.Gobbler.RandomizeAllocCount` | mem_gobbler.c:983-993 | the number of requests or the budget of the machine |
| `Program.Gobbler.AddNewAlloc` | mem_gobbler.c:881-895 | appends one entry to the current row, or refuses if it has 500, and changes nothing else |
| `Program.Gobbler.Mmapper` | mem_gobbler.c:1053-1091 | one more mapping of the size asked for, at a new address; no other mapping is touched |
| `Program.Gobbler.Alloc` | mem_gobbler.c:1093-1113 | the whole effect of an allocation: length after class and cap, node, mapping, or nothing but the probe |
| `Program.Gobbler.CountPages` | mem_gobbler.c:1129-1137 | the counters move by the pages of the mapping |
| `Program.Gobbler.MarkNode` | mem_gobbler.c:1139-1140 | the file is in use afterwards |
| `Program.Gobbler.Record` | mem_gobbler.c:1126-1144 | entry, counters and mark, or the end of the program after the counters have moved |
| `Program.PlacedRequest` | mem_gobbler.c:1115-1157 | the steps of the code in their order come to one request of the machine |
| `Program.Gobbler.RandomAllocatorOne` | mem_gobbler.c:1115-1157 | one request of the machine and what it leaves of the budget; no mapping is touched |
| `Program.Gobbler.Touch` | mem_gobbler.c:1000-1014 | touches the mapping of one entry of the current phase by the pattern in use, with the flag of the transition as it stands, if there is such an entry, and no other mapping |
| `Program.TallyTouch` | mem_gobbler.c:1000-1014 | a touch keeps the touches of every mapping, in transitions and in holding, and its contents in step |
| `Program.Gobbler.LoopN` | mem_gobbler.c:1033-1042 | touches the last entry of the phase n times and nothing else |
| `Program.Gobbler.GoToNxtPhase` | mem_gobbler.c:864-871 | the index goes up by one, or the program ends if it is past the tracker |
| `Program.Gobbler.LeaveTracker` | mem_gobbler.c:864-871 | from the last row the guard lets the index go past the tracker |
| `Program.Gobbler.Transit` | mem_gobbler.c:1184-1195 | one turn of the transition loop: the request, the rest of the budget and of the slice, and i touches of the new mapping if there is one |
| `Program.Gobbler.SpendBudget` | mem_gobbler.c:1184-1195 | the loop ends, carries out the loop of the machine, and touches each new mapping i times before the next |
| `Program.Gobbler.Plan` | mem_gobbler.c:1172-1179 | the budget and the slice that a phase begins with |
| `Program.Gobbler.TransRandAlloc` | mem_gobbler.c:1162-1202 | one transition of the machine, or past the last row the end of the tracker; its touches are those of the mappings it makes, each as often as rand_lim(3) says, all with the flag of the transition set, which is clear afterwards |
| `Program.Gobbler.HoldTurn` | mem_gobbler.c:1214-1224 | one turn of the holding loop touches the entry before the index, or starts over |
| `Program.Gobbler.LoopFor` | mem_gobbler.c:1204-1231 | ends after the first n turns that take the clock far enough, and touches the entries of the phase in the order of the countdown, all with the flag of the transition clear, and no other mapping |
| `Touches.HeldFair` | mem_gobbler.c:1204-1231 | the holding loop is fair to the mappings of the phase |
| `Touches.JobFair` | mem_gobbler.c:1234-1261 | one job touches each of the mappings of its phase i times with the flag of the transition set, its fair share of the holding turns with it clear, and every other mapping never |
| `Touches.RunTouched` | mem_gobbler.c:1416-1453 | over a whole run the completed phases belong to the jobs that are not late, one each and in order; every mapping of a phase is touched in its transition as often as the phase loops, outside of any transition as often as its share of the turns of its job is, and never again |
| `Program.Gobbler.Work` | mem_gobbler.c:1244-1257 | a phase of the machine with its touches in their order: the transition, and as many holding turns as the clock takes |
| `Program.Gobbler.Job` | mem_gobbler.c:1234-1261 | a job is skipped, or is such a phase; no mapping of an earlier phase is touched |
| `Program.TurnCases` | mem_gobbler.c:1416-1453 | the tests of the loop of main, in its order, come to one turn of the machine and its touches |
| `Program.Gobbler.NextJob` | mem_gobbler.c:1416-1453 | one turn of the loop of main, with what it touches |
| `Program.Gobbler.RunJobs` | mem_gobbler.c:1416-1453 | for every -p the loop of main ends in the state in which the run of the machine ends, and has touched what the world determines |
| `Program.Gobbler.RunProgram` | mem_gobbler.c:1313-1455 | a whole run ends in the state of the machine's run: counters exact, finished phases unchanged, invariant if it has not ended inside a phase, off the tracker only for -p above 60001, and each completed phase touched in fair shares |
| `Program.Gobble` | mem_gobbler.c:1313-1455 | the program from its start, with any list of files, options, vector file, random numbers and clocks, does all this |
| `Program.EveryLog` | mem_gobbler.c:489-801 | at any time of a run: what has been done to each mapping is what its touches do under the pattern in use, in their order, each on its own streams and in a transition or not |
| `Program.RandBytes` | mem_gobbler.c:724-793 | RANDOM at any time of a run: how many touches a mapping has had for its touches in transitions and in holding, that they are of reachable bytes, and every byte by the parity of its own |
| `Program.PhaseRandTouches` | mem_gobbler.c:724-793 | so in a completed phase each mapping has had 20 for each loop and 2500 for each turn of its share, times the windows of its halves |
| `Program.SteadyBytes` | mem_gobbler.c:489-722 | STRIDE, SEQUENTIAL and REPEAT at any time of a run: every byte of every mapping, from how often the mapping has been touched |
| `Program.FixBytes` | mem_gobbler.c:489-613 | FIX at any time of a run: at most one byte of each mapping has changed, the one that rand_intr drew at the first touch of the mapping, and the parity of its touches says to what |
| `Program.PhaseSteadyBytes` | mem_gobbler.c:489-722 | so the final bytes of the mappings of every completed phase follow from its loops and from the shares of the turns of its job |
| `Program.PhaseFixBytes` | mem_gobbler.c:489-613 | and under FIX that one byte, by the loops of the phase and the share of its job |

## Left out

- Option parsing, usage text, the printed statistics, `getrusage`, `setrlimit` and `on_process_exit`: no state of the run depends on them.
- Reading a vector file: its lines are taken as a sequence of page counts and a sequence of execution times; a negative count is not modelled.
- `reset_stma_ltma`: three branches that write a file under `/proc`.
- The table of time units and `lt_sleep`: clock readings are parameters.
- `loop_once`: its counters affect nothing else.
- `alloc_nomore` inside `job`: `main` ends the run before a job could see it set.
- `del_alloc`: not compiled.
- `precise_allocer.c`, `job_manager.c` and the other split files: they repeat parts of `mem_gobbler.c` or are unfinished.
- The building of the disk image in `file_gen/file_gen.sh`: only the shape of the list that it writes is used.
- Failures of `mmap`, `madvise`, `open`, `ftruncate` and `malloc`: each ends the program at once.
- Names of files: a path is the position of its node, so two nodes with the same name would count as two files.
- Wrapping of the type counter, a C `int`, after 2^31 requests.
- Wrapping of products of `unsigned long`, and pages of another size than 4096.
- Rounding of IEEE doubles in `repeat_get_count` and in the clock arithmetic: both are over real numbers.
- Addresses: a mapping is known by its index, and bytes by their offset.
- Samplers.RandIntr: requires begin <= end and a range below 2^64, as a range of 2^64 is a division by zero; the only such call of the program is `fix_rand_loc` on nine bytes, which `Fix.FixList.FixRandLoc` covers.
- Samplers.RandLim: requires a limit from 1 to RAND_MAX - 1, as for 0 the loop does not end, and for -1 or from RAND_MAX on the code divides by zero; its callers stay within this.
- Fix.FixList.FixRandLoc: says nothing of the state after a write outside the mapping, which is undefined behaviour, or after the division by zero.
- Patterns.RandomTouch: requires a half of at least 1021 bytes, the shortest for which rand_lim has a value to draw; below, the length of the window is too small or wraps. Every half in the program has at least 2048.
- Program.Gobbler.RunJobs: requires a clock that reaches the execution time in every job; and says nothing of what happens after the tracker has been left, which is undefined behaviour.
- Limits.UncappedLimitIff: leaves out budgets above 499p + 1 pages without a byte cap, for which the row of the tracker is too short; the program has none, as only -A gives a budget without a cap, and that is 150.
- Limits.UncappedLimitReached: leaves out the same budgets.
- Touches.RunTouched: does not give the touches of a phase in which the program ended; `Touches.JobTouches` lists them.
