# rs-aoc2024 in Dafny

A verified model of the puzzle logic in rs-aoc2024, a Rust solution set for
Advent of Code 2024. Every source file of the core is one Dafny module (one
`.dfy` file), and each module works on input that is already parsed. The
Rust fixed-width integers become Dafny's unbounded `int` and `nat`. Where the
Rust code would panic, the model has a precondition instead.

- **Warehouse** (`warehouse.dfy`) and **Widening** (`widening.dfy`), for
  `src/bin/day15.rs`:
  - The robot moves over a sparse map of walls and crates.
  - Part 1 scans the run of crates ahead and shifts it farthest crate
    first.
  - Part 2 first doubles the map. It then gathers the whole push tree of
    wide crates from a worklist, aborting on any wall, and applies the move
    by re-queueing cells whose destination is still occupied.
  - Each imperative method is proved equal to a pure step function
    (`Step1`, `Step2`). The step functions are proved to do the following:
    - leave everything unchanged for a non-arrow character or a blocked
      push;
    - move exactly the pushed crates one step;
    - conserve crates and walls;
    - keep every left half paired with its right half.
- **Coords** (`coords.dfy`), for `src/lib.rs`: the `Coord` algebra and the
  grid loader `parse_with_coords`.
- **Disk** (`disk.dfy`), for `src/bin/day09.rs`:
  - Block-wise compaction is a permutation of the file blocks.
  - Whole-file compaction uses the first gap that fits and conserves length
    and files.
  - Both deque loops return the checksum of their compaction.
- **Claw** (`claw.dfy`), for `src/bin/day13.rs`: Cramer's rule with
  truncating division, which is sound, complete for a regular system and has
  a unique solution. The two cost folds are included.
- **Stones** (`stones.dfy`), for `src/bin/day11.rs`:
  - The blink rule.
  - The memoised count, which equals the plain recursion and keeps its memo
    sound.
  - The folds, which equal the length of the evolved row.
- **Reports** (`reports.dfy`), for `src/bin/day02.rs`: the safety check and
  the single-removal search, each as written and corrected. Both parts run
  the check as written, which accepts constant reports.
- **Guard** (`guard.dfy`), for `src/bin/day06.rs`:
  - The guard's walk as a deterministic state machine.
  - The visited cells.
  - Loop detection for each candidate obstruction.
- **Pages** (`pages.dfy`), for `src/bin/day05.rs`:
  - The "unordered" check.
  - Rule grouping.
  - The comparator sort, an insertion sort in place on an array. It is a
    permutation, and under a total order it is the unique correct
    arrangement.
  - The middle-page sums.
- **Calibration** (`calibration.dfy`), for `src/bin/day07.rs`:
  - All operator sequences.
  - Left-to-right evaluation.
  - Digit concatenation.
  - The calibration fold, which counts exactly the solvable calibrations.
- **Garden** (`garden.dfy`) and **FenceSides** (`sides.dfy`), for
  `src/bin/day12.rs`:
  - A breadth-first flood fill that finds exactly the connected regions,
    which partition the map.
  - Perimeter.
  - Side counting by draining maximal runs of fence segments.
- **Trails** (`trails.dfy`), for `src/bin/day10.rs`:
  - Part 1 does a downhill search from each summit, with a visited set, and
    counts reachable summits.
  - Part 2 does the same search without one and counts downhill paths.
- **WordSearch** (`wordsearch.dfy`), for `src/bin/day04.rs`: XMAS in eight
  directions and X-MAS crosses, each counted as a set of occurrences.
- **Antennas** (`antennas.dfy`), for `src/bin/day08.rs`: grouping by
  frequency, and the antinode sets of both parts, equal to a declarative
  definition on the text.
- **Lists** (`lists.dfy`), for `src/main.rs`:
  - The in-place sort, held to the unique ascending arrangement.
  - The zipped distance.
  - The similarity, which is symmetric and unaffected by sorting.
- **Util** (`util.dfy`): `Option`, a choice-based sum over a set, and lemmas
  about set cardinality.

Hash map iteration order is never fixed by the model:
- A loop over a map's keys picks an arbitrary remaining key (`:|`).
- A fold over a key list takes the list as a parameter. Where the order could
  matter, the list is only required to hold each key once.

Notes on the source, where the model follows the code:
- The part 2 test of `src/bin/day11.rs:87-92` expects 81 stones after 75
  blinks of "125 17". `Stones.Part2ExampleAbove81` proves that the row has
  more than 3^10 stones by then, so that expected value cannot be what the
  code returns.
- The small part 2 test of `src/bin/day15.rs:268-279` expects 9021, the value
  of the large example. The model does not evaluate either example.
- The second block of part 2 in `src/bin/day08.rs:62-66` is an `if`, not a
  loop, so it marks only `b` itself. Every pair is also visited in the
  opposite order, so the union is still the whole line of multiples
  (`Antennas.GroupAntinodes2`, `Antennas.ResonancesAreAntinodes`).
- `part1` and `part2` of `src/main.rs` print their results instead of
  returning them. The model returns the accumulated value.

## Model

| member | source | states |
|---|---|---|
| Coords.ParseWithCoords | src/lib.rs:54-78 | the map holds (x, y) with value v exactly when the character at column x of line y parses to v; the size is (largest column index, largest line index), 0 when there is none, and every key is inside the map of that size |
| Warehouse.DirectionOf | src/bin/day15.rs:30-36 | exactly `<`, `>`, `^`, `v` give a direction, each a unit step (`^` is (0,-1), `v` is (0,1)); every other character is skipped |
| Warehouse.ShiftMoves | src/bin/day15.rs:57-60 | what moving a set of cells one step does: each moved object reappears one step along the direction, cells neither moved nor landed on are untouched, vacated cells become floor |
| Warehouse.Shift | src/bin/day15.rs:57-60 | the map after a set of cells moves one step: removing every moved cell and inserting it one step further; its effect is stated by `Warehouse.ShiftMoves`, and the lemmas after it prove that a closed shift conserves objects and keeps the walls |
| Warehouse.ShiftConserves | src/bin/day15.rs:57-60 | a closed shift relocates the cells holding each object and changes neither their number nor anything that did not move |
| Warehouse.ShiftKeepsWalls | src/bin/day15.rs:57-60 | a shift of cells holding no wall leaves every wall where it was |
| Warehouse.ShiftExtend | src/bin/day15.rs:57-60 | one more remove-then-insert of a cell whose source is not moving extends the shift by that cell |
| Warehouse.MovedCard | src/bin/day15.rs:57-60 | a translation keeps the number of cells |
| Warehouse.Scan | src/bin/day15.rs:41-55 | every cell of the collected run holds a crate |
| Warehouse.ScanShape | src/bin/day15.rs:41-55 | the run is the straight line of consecutive crates from the robot's target, one step apart, and it stops at the first cell that holds no crate |
| Warehouse.LineAlong | src/bin/day15.rs:57 | a one-step-apart run has no repeated cell, so reverse-order removal never overwrites a crate |
| Warehouse.Step1Outcome | src/bin/day15.rs:29-62 | an unknown character changes nothing; a run ending at a wall changes nothing; otherwise every crate of the run is one step further, the robot is on the cell it freed, and every other cell is untouched |
| Warehouse.Step1 | src/bin/day15.rs:29-62 | one part-1 instruction: skip a non-arrow, stop at a wall at the end of the crate run, otherwise push the run and move the robot. `Warehouse.Step1Outcome` states its whole outcome, and `Warehouse.Step1Conserves` shows it conserves crates and walls |
| Warehouse.Step1Pushes | src/bin/day15.rs:56-61 | the unblocked case: the cell past the run is floor, moved crates land one step on, and the robot's new cell is empty |
| Warehouse.Step1Conserves | src/bin/day15.rs:56-61 | one part-1 instruction keeps the number of crates and every wall and leaves the robot on floor |
| Warehouse.Simulate1Conserves | src/bin/day15.rs:29-63 | the same over the whole instruction tape |
| Warehouse.Simulate1 | src/bin/day15.rs:29-63 | the instructions applied one after the other; `Warehouse.Simulate1Conserves` proves that crates and walls are conserved over the whole tape, and `Warehouse.Part1` that the program computes this path |
| Warehouse.ScanCrates | src/bin/day15.rs:38-55 | the scan loop returns the run of `Scan` and reports a wall exactly when the run ends at one |
| Warehouse.PushRun | src/bin/day15.rs:57-60 | moving the run farthest-first, one remove and one insert per crate, is the shift of the whole run |
| Warehouse.GpsChecksum | src/bin/day15.rs:65-68 | the fold over the map, in any order, is the sum of x + 100y over the cells holding the given object |
| Warehouse.GpsSum | src/bin/day15.rs:65-68 | the sum of x + 100y over the cells holding an object; `Warehouse.GpsChecksum` shows the program's fold over the map, in any order, computes it |
| Warehouse.OnlyRobot | src/bin/day15.rs:26 | with one robot on the map, `find` can return only that robot |
| Warehouse.RobotOf | src/bin/day15.rs:26 | the robot of a map with exactly one robot is on a robot cell; `Warehouse.OnlyRobot` shows it is the one `find` returns |
| Warehouse.Part1 | src/bin/day15.rs:17-69 | the imperative simulation returns the checksum of the crates after running the pure step function over the tape |
| Warehouse.MateOfMate | src/bin/day15.rs:135-148 | in a paired map the mate of a half is the other kind of half, and its mate is the original cell |
| Warehouse.HalvesShrink | src/bin/day15.rs:135-148 | collecting a new half and its mate shrinks the halves not yet collected, so the resolve loop terminates |
| Warehouse.ResolveSound | src/bin/day15.rs:126-151 | a resolve that meets no wall returns distinct halves forming whole crates, every destination of which is floor or is itself moving, and every examined cell that is not floor |
| Warehouse.SoundSkip | src/bin/day15.rs:127-129 | skipping an already collected or floor candidate keeps the resolve invariant |
| Warehouse.SoundCollect | src/bin/day15.rs:135-148 | collecting a half with its mate and queueing both cells ahead keeps the resolve invariant |
| Warehouse.SoundNarrow | src/bin/day15.rs:127-129 | a sound result without a skipped candidate is sound with it |
| Warehouse.SoundWiden | src/bin/day15.rs:135-148 | a sound result after collecting a candidate is sound for the stack it was popped from |
| Warehouse.ResolveLeast | src/bin/day15.rs:126-151 | when some movable set of whole crates contains the examined cells, the resolve succeeds and collects no more than that set |
| Warehouse.Resolve | src/bin/day15.rs:126-151 | the resolve loop as a function: a wall ends the push with None, an uncollected half is collected with its mate and the cells ahead are pushed. `Warehouse.ResolveSound` proves the result is whole, movable crates, `Warehouse.ResolveLeast` that it is the least such set, and `Warehouse.ResolveBlockedIff` that it fails exactly when no movable set exists |
| Warehouse.ResolveBlockedIff | src/bin/day15.rs:130-134 | a wide push is blocked exactly when no movable set of whole crates contains the cell ahead of the robot |
| Warehouse.ShiftPaired | src/bin/day15.rs:153-160 | moving whole crates keeps every left half beside a right half and vice versa |
| Warehouse.MovedHalfPaired | src/bin/day15.rs:153-160 | a moved half lands beside its mate, which moved with it |
| Warehouse.StayedPaired | src/bin/day15.rs:153-160 | a half that stayed still has its mate beside it |
| Warehouse.Step2 | src/bin/day15.rs:114-162 | a part-2 instruction keeps the map paired |
| Warehouse.Simulate2 | src/bin/day15.rs:114-163 | the whole tape keeps the map paired |
| Warehouse.Step2Blocked | src/bin/day15.rs:130-152 | the push is all or nothing: blocked exactly when no set of whole crates containing the target can move, and a blocked push changes neither map nor robot |
| Warehouse.Step2Pushed | src/bin/day15.rs:152-162 | an unblocked push shifts a movable set of whole crates and the robot steps onto the cell it freed |
| Warehouse.FreedCell | src/bin/day15.rs:161 | the robot's target is floor after the shift |
| Warehouse.Step2Skips | src/bin/day15.rs:115-121 | exactly the characters outside `<>^v` are skipped, and they change nothing |
| Warehouse.Step2Conserves | src/bin/day15.rs:152-162 | a part-2 instruction keeps the numbers of left and right halves and every wall, and leaves the robot on floor |
| Warehouse.Simulate2Conserves | src/bin/day15.rs:114-163 | the same over the whole tape |
| Warehouse.ResolvePush | src/bin/day15.rs:123-151 | the stack-and-deque loop reports a wall exactly when the pure resolve fails, and otherwise returns its halves |
| Warehouse.FirstFree | src/bin/day15.rs:153-156 | the index of the first queued half whose destination is free: every earlier one's is taken |
| Warehouse.FirstFreeRotate | src/bin/day15.rs:154-155 | re-queueing a blocked front half brings the first free half one place nearer the front |
| Warehouse.FarthestAlong | src/bin/day15.rs:153-160 | the queued half farthest along the direction |
| Warehouse.FreeExists | src/bin/day15.rs:153-160 | while halves remain, one of them has a free destination (the farthest one), so the apply loop does not spin forever |
| Warehouse.ApplyRotate | src/bin/day15.rs:154-155 | `push_back` of a blocked half keeps the apply invariant |
| Warehouse.ApplyMove | src/bin/day15.rs:156-158 | removing a free half and inserting it one step on keeps the apply invariant and extends the shift by that half |
| Warehouse.ApplyPush | src/bin/day15.rs:153-160 | the re-queueing apply loop ends with the shift of all collected halves |
| Widening.Parity | src/bin/day15.rs:84-109 | left halves sit on even columns and right halves on odd ones, so they never collide |
| Widening.LeftAt | src/bin/day15.rs:84-109 | the left half (2x, y) of a cell holds what the doubling puts there, or nothing |
| Widening.RightSome | src/bin/day15.rs:84-104 | the right half (2x+1, y) of a wall or crate holds a wall or a right half |
| Widening.RightNone | src/bin/day15.rs:105-108 | the robot has no right half |
| Widening.WidenedAt | src/bin/day15.rs:84-109 | a wall becomes two walls, a crate a left half and a right half, the robot stays on the left half |
| Widening.WidenedOrigin | src/bin/day15.rs:84-109 | every wide cell is a half of a parsed cell |
| Widening.WidenedIsWidening | src/bin/day15.rs:84-109 | the doubled map satisfies the cellwise doubling description |
| Widening.Widened | src/bin/day15.rs:84-109 | the doubled map, left halves at even columns and right halves at odd ones; `Widening.WidenedAt` states it cell by cell, and `Widening.WidenedIsWidening` and `Widening.WideningUnique` show it is the one doubling |
| Widening.WideningUnique | src/bin/day15.rs:80-109 | there is only one doubling of a map, so the insertion order can not matter |
| Widening.WideSource | src/bin/day15.rs:84-109 | each wide cell names the parsed cell and the half it comes from |
| Widening.WideCellWellFormed | src/bin/day15.rs:95-111 | in the doubling the robot is at (2x, y) only, and every half has its mate beside it |
| Widening.WideningWellFormed | src/bin/day15.rs:111-112 | the doubled map without the robot is paired and holds no robot |
| Widening.WidenedWellFormed | src/bin/day15.rs:111-112 | the same for the doubled map itself |
| Widening.WidenWarehouse | src/bin/day15.rs:83-109 | the insertion loop, in any order, builds the doubled map |
| Widening.WidenStep | src/bin/day15.rs:84-109 | one pass of the loop keeps the map a doubling of the cells done |
| Widening.WidenStepKeys | src/bin/day15.rs:84-109 | the halves of a cell not yet processed are not yet in the doubled map, so an insertion never overwrites |
| Widening.WidenStepOther | src/bin/day15.rs:84-109 | one pass touches no other cell |
| Widening.Part2 | src/bin/day15.rs:71-179 | the imperative part 2 returns the checksum of the left halves after the pure wide simulation of the doubled map |
| Disk.DigitValue | src/bin/day09.rs:17 | a decimal digit's value is at most 9 |
| Disk.Parse | src/bin/day09.rs:12-24 | one entry per character, with that digit as its length; entry i is a file with id i/2 when i is even and free space when it is odd |
| Disk.Rep | src/bin/day09.rs:34-38 | a run of n equal blocks |
| Disk.BlocksAppend | src/bin/day09.rs:12-24 | the block layout of a concatenation is the concatenation of the layouts, and lengths add |
| Disk.BlocksLast | src/bin/day09.rs:42 | the layout splits off the last entry's blocks |
| Disk.FileIdsAppend | src/bin/day09.rs:33-39 | the multiset of file blocks of a concatenation is the sum of the parts' |
| Disk.FileIdsRep | src/bin/day09.rs:33-39 | a run of n file blocks holds n file blocks, a free run none |
| Disk.FileIdsCount | src/bin/day09.rs:33-39 | the number of file blocks on the disk is the total length of the file entries |
| Disk.CompactPermutes | src/bin/day09.rs:29-66 | block-wise compaction emits every file block exactly once: the compacted sequence is a permutation of the disk's file blocks |
| Disk.Compact | src/bin/day09.rs:29-66 | block-wise compaction as a function of the block layout; `Disk.CompactPermutes` proves it emits every file block exactly once, `Disk.CompactShorter` that it never lengthens the disk, and `Disk.Part1` that the deque loop computes it |
| Disk.GapFrontIds | src/bin/day09.rs:40-57 | the file blocks of a disk starting with a gap are those of its last block plus those strictly between |
| Disk.CompactShorter | src/bin/day09.rs:29-66 | compaction never emits more blocks than the disk has |
| Disk.CompactKeepsPlaced | src/bin/day09.rs:33-39 | a file block at an index inside the compacted region was never moved: it is emitted at its own position |
| Disk.EmitStep | src/bin/day09.rs:34-38 | emitting one block of a leading file |
| Disk.EmitRun | src/bin/day09.rs:33-39 | a leading file emits all of its blocks, in place, before anything else |
| Disk.TakeRun | src/bin/day09.rs:48-53 | filling a gap of k blocks from a back file of l blocks emits t blocks of that file for any t up to both, and leaves k-t and l-t |
| Disk.PrependRun | src/bin/day09.rs:48-53 | one emitted block in front of a run of t-1 makes a run of t |
| Disk.TakeStep | src/bin/day09.rs:48-53 | one iteration of the inner loop moves one block of the back file into the gap |
| Disk.DropStep | src/bin/day09.rs:43 | a free block at the back is discarded while a gap is being filled |
| Disk.DropFreeRun | src/bin/day09.rs:43 | a whole free entry at the back is discarded |
| Disk.AllFree | src/bin/day09.rs:58-60 | a disk of free blocks only emits nothing |
| Disk.ChecksumAppend | src/bin/day09.rs:35-50 | emitting id at the next disk index adds index times id |
| Disk.Part1 | src/bin/day09.rs:11-69 | the deque loop returns the position-times-id checksum of the block-wise compaction of the parsed disk |
| Disk.EmitFile | src/bin/day09.rs:33-39 | the inner loop over a front file emits its id `len` times and keeps disk index and checksum in step with what was emitted |
| Disk.TakeFromBack | src/bin/day09.rs:48-53 | the inner fill loop emits min(free, file) blocks of the back file and reduces both lengths by that amount |
| Disk.PlaceBackFile | src/bin/day09.rs:44-56 | a back file partly placed into the gap is pushed back with the same id and its remaining length, and the emitted blocks plus the compaction of what remains are unchanged |
| Disk.FillGap | src/bin/day09.rs:40-62 | the gap-filling loop (which stops when the deque runs dry) keeps emitted blocks plus the compaction of what remains unchanged and never lengthens the deque |
| Disk.GapFilled | src/bin/day09.rs:41-60 | once the gap is used up or the deque is empty the gap contributes nothing |
| Disk.PopBack | src/bin/day09.rs:42-61 | one `pop_back` while a gap remains keeps the compaction equation and strictly shrinks the remaining blocks and entries |
| Disk.TotalLenSnoc | src/bin/day09.rs:42 | the total length of a deque with one more entry at the back |
| Disk.DropBackGap | src/bin/day09.rs:43 | popping a free entry at the back while filling a gap changes nothing that is emitted |
| Disk.FillFromBack | src/bin/day09.rs:44-56 | filling a gap from a back file emits min(gap, file) blocks of it and leaves the rest of the file at the back |
| Disk.GapThenFile | src/bin/day09.rs:44-47 | the layout of a back file is its run of blocks at the end |
| Disk.Part1EmitsEveryBlock | src/bin/day09.rs:29-66 | part 1 emits exactly as many blocks as the files have, so the final disk index is the sum of the file lengths, and emits each file's blocks |
| Disk.FirstFit | src/bin/day09.rs:94-97 | `position` finds the first free entry with room for the file: it fits, no earlier entry fits, and None means none fits |
| Disk.PlaceShape | src/bin/day09.rs:98-105 | moving a file into a gap inserts the file before the gap and shrinks the gap by exactly the file's length, leaving every other entry in place |
| Disk.Place | src/bin/day09.rs:98-105 | a file moved into a gap: the file goes before the gap and the gap shrinks by its length. `Disk.PlaceShape` states the whole result, and `Disk.PlaceConserves` shows the total length and the files are kept |
| Disk.PlaceConserves | src/bin/day09.rs:98-106 | a placement keeps the total length and adds the file to the files |
| Disk.DecomposeAt | src/bin/day09.rs:88-115 | length and files of the entries split around one entry |
| Disk.SingleConserves | src/bin/day09.rs:106 | a free entry has its own length and no file |
| Disk.PairConserves | src/bin/day09.rs:105-106 | a file followed by a free entry has their joint length and that one file |
| Disk.SplitConserves | src/bin/day09.rs:88-115 | length and files of a three-way concatenation add up |
| Disk.FilesOfAppend | src/bin/day09.rs:88-115 | the files of a concatenation are the sum of the parts' |
| Disk.FilesOfLast | src/bin/day09.rs:89 | the files split off the last entry |
| Disk.PlaceIndex | src/bin/day09.rs:105 | the entries after an insertion are those before it, shifted by one past the gap |
| Disk.MovableBefore | src/bin/day09.rs:94-105 | a file that could still move after a placement could already move before it |
| Disk.PlacedFits | src/bin/day09.rs:94-105 | a gap that fits after a placement came from a gap that fitted before |
| Disk.ShiftedBack | src/bin/day09.rs:94-105 | a file with a fitting earlier gap is still movable once another file is appended |
| Disk.MoveShrinks | src/bin/day09.rs:94-106 | moving a file strictly reduces the number of files that could still move, so the loop terminates although a moved file is pushed back |
| Disk.DefragmentSnoc | src/bin/day09.rs:89-109 | the back entry is kept when it is free or no gap fits it, and otherwise moved into the first fitting gap and replaced by free space |
| Disk.ShrinkInsert | src/bin/day09.rs:99-105 | `get_mut` shrinking the gap and then `insert` before it is the placement |
| Disk.DefragmentConserves | src/bin/day09.rs:88-115 | whole-file compaction keeps the total length of entries plus tail and moves every file, none created or lost |
| Disk.Defragment | src/bin/day09.rs:88-115 | whole-file compaction as a function of the remaining entries: each file from the back is placed into the first gap that holds it, or kept. `Disk.DefragmentConserves` proves that length and files are conserved, `Disk.DefragmentLast` that an unfit file stays at the back, and `Disk.Part2` that the deque loop computes it |
| Disk.DefragmentLast | src/bin/day09.rs:108 | a file with no fitting gap stays at the back |
| Disk.BlockSumAppend | src/bin/day09.rs:117-127 | the position-times-id sum of a concatenation |
| Disk.BlockSumRep | src/bin/day09.rs:121-123 | the sum of a file run is the range sum of positions times the id |
| Disk.TailFoldIsBlockSum | src/bin/day09.rs:117-127 | the tail fold computes the position-times-id sum of the tail's block layout and ends at its total length |
| Disk.TailFold | src/bin/day09.rs:117-127 | the fold over the tail, as (disk index, checksum); `Disk.TailFoldIsBlockSum` proves it is the position-times-id sum of the tail's blocks and ends at the tail's total length |
| Disk.Part2 | src/bin/day09.rs:71-128 | the deque loop returns the position-times-id checksum of the whole-file compaction of the parsed disk |
| Disk.PopEntry | src/bin/day09.rs:89-109 | one loop iteration keeps the compaction of entries followed by the tail unchanged and decreases the measure |
| Disk.PopKeeps | src/bin/day09.rs:90-108 | a free back entry, or a file with no fitting gap, goes to the front of the tail |
| Disk.PopMoves | src/bin/day09.rs:98-107 | a moved file leaves free space of its own length in the tail |
| Disk.Part2Conserves | src/bin/day09.rs:88-115 | over the whole run the total length and the files are unchanged |
| Claw.DivT | src/bin/day13.rs:31-34 | the program's signed `/` truncates toward zero: the remainder is smaller than the divisor in magnitude and has the dividend's sign |
| Claw.DivTMultiple | src/bin/day13.rs:31-34 | an exact multiple divides back to its factor with no remainder, whatever the signs |
| Claw.SmallMultiple | src/bin/day13.rs:31 | a multiple of d smaller than d in magnitude is zero |
| Claw.AbsMul | src/bin/day13.rs:31 | a non-zero multiple of d is at least as large as d in magnitude |
| Claw.Cramer | src/bin/day13.rs:18-30 | every solution of the system satisfies Cramer's equations (numerator = determinant times presses) |
| Claw.Determinant | src/bin/day13.rs:18-21 | the determinant of the system; `Claw.Solve` and `Claw.SingularMachineIgnored` show a zero determinant yields no solution, and `Claw.SolutionUnique` that a non-zero one allows at most one |
| Claw.NumA | src/bin/day13.rs:27-28 | Cramer's numerator for the presses of A; `Claw.Cramer` and `Claw.CramerConverse` show that a solution is exactly a press count with numerator = determinant times presses |
| Claw.NumB | src/bin/day13.rs:29-30 | the same numerator for the presses of B, in the same lemmas |
| Claw.CramerConverse | src/bin/day13.rs:26-35 | with a non-zero determinant, presses satisfying Cramer's equations solve the system |
| Claw.CancelFactor | src/bin/day13.rs:26-35 | a non-zero factor cancels |
| Claw.Solve | src/bin/day13.rs:23-38 | `solve` returns only press counts that land exactly on the prize, and None for a zero determinant |
| Claw.SolutionUnique | src/bin/day13.rs:23-38 | with a non-zero determinant there is at most one solution |
| Claw.SolveComplete | src/bin/day13.rs:31-34 | with a non-zero determinant, a reachable prize is found: the divisibility test fails only when no integer solution exists |
| Claw.SingularMachineIgnored | src/bin/day13.rs:24-25 | a zero determinant gives None even when the prize is reachable |
| Claw.SolveExamples | src/bin/day13.rs:41-75 | the four test systems give (80, 40), None, (38, 86), None |
| Claw.Prize1AsWritten | src/bin/day13.rs:110-118 | the part-1 fold adds only the cost 3a+b of a solution with a < 100 and b < 100, and nothing for a machine without one |
| Claw.Part1AsWritten | src/bin/day13.rs:105-120 | the part-1 fold with the arm as written; `Claw.NegativePressesCounted` shows it counts 8 tokens for a machine that cannot be won, and `Claw.Part1Example` that it gives 480 on the examples |
| Claw.NegativePressesCounted | src/bin/day13.rs:113-114 | a machine reachable only with -1 presses of B is counted for 8 tokens as written, and not by the corrected fold |
| Claw.Prize1 | src/bin/day13.rs:110-118 | the corrected part-1 amount: the cost of a win with 0 to 99 presses of each button, at most 3*99+99 |
| Claw.Prize1Complete | src/bin/day13.rs:110-118 | every machine of a regular system winnable with 0 to 99 presses of each button is counted at its cost |
| Claw.Part1 | src/bin/day13.rs:105-120 | the part-1 total is at most 396 tokens per machine |
| Claw.Prize2AsWritten | src/bin/day13.rs:133-138 | the part-2 fold adds the cost of the solution of the system with the prize moved by 10^13, with no bound |
| Claw.Part2AsWritten | src/bin/day13.rs:122-140 | the part-2 fold as written; `Claw.NegativePressesCounted2` shows it counts a shifted prize reachable only with a negative press, and `Claw.Part2Example` that it gives 875318608908 on the examples |
| Claw.NegativePressesCounted2 | src/bin/day13.rs:138 | the same: a moved prize reachable only with -1 presses of B is counted as written, not by the corrected fold |
| Claw.Prize2 | src/bin/day13.rs:133-138 | the corrected part-2 amount is the cost of a win with non-negative presses after the move |
| Claw.Part2 | src/bin/day13.rs:122-140 | the corrected part-2 total, tokens of winnable shifted prizes summed over the machines; `Claw.Part2Example` shows it agrees with the program on the examples |
| Claw.Prize2Complete | src/bin/day13.rs:133-138 | every regular machine winnable after the move is counted at its cost |
| Claw.Part1Example | src/bin/day13.rs:158-178 | the part-1 example totals 480, as written and corrected |
| Claw.Part1Total | src/bin/day13.rs:108-119 | four machines of costs 280, 0, 200, 0 total 480 |
| Claw.Part2Example | src/bin/day13.rs:180-199 | the part-2 example totals 875318608908, as written and corrected |
| Claw.Part2Total | src/bin/day13.rs:125-139 | four machines of costs 0, 459236326669, 0, 416082282239 total 875318608908 |
| Claw.Prize2Example0 | src/bin/day13.rs:133-138 | the first example machine cannot be won after the move |
| Claw.Prize2Example1 | src/bin/day13.rs:133-138 | the second costs 459236326669 after the move |
| Claw.Prize2Example2 | src/bin/day13.rs:133-138 | the third cannot be won after the move |
| Claw.Prize2Example3 | src/bin/day13.rs:133-138 | the fourth costs 416082282239 after the move |
| Claw.Part1OfFour | src/bin/day13.rs:108-119 | the fold over four machines is the sum of their four amounts |
| Claw.Part1AsWrittenOfFour | src/bin/day13.rs:108-119 | the same for the fold as written |
| Claw.Part2OfFour | src/bin/day13.rs:125-139 | the same for part 2 |
| Claw.Part2AsWrittenOfFour | src/bin/day13.rs:125-139 | the same for part 2 as written |
| Stones.Pow10Add | src/bin/day11.rs:17 | powers of ten multiply by adding exponents |
| Stones.NumDigits | src/bin/day11.rs:13 | `checked_ilog10().unwrap_or(0) + 1` is the decimal digit count: at least 1, s < 10^n, and 10^(n-1) <= s from 10 on (0 has one digit) |
| Stones.NumDigitsBetween | src/bin/day11.rs:13 | a number between 10^(n-1) and 10^n has n digits |
| Stones.BlinkRule | src/bin/day11.rs:12-22 | 0 becomes 1; a stone with an even digit count n splits into a left and a right part with left * 10^(n/2) + right == s and right < 10^(n/2); any other stone becomes s * 2024 |
| Stones.BlinkStone | src/bin/day11.rs:12-22 | one stone's blink; `Stones.BlinkRule` states its three arms with the split recombining to the stone, and `Stones.BlinkExamples` the program's `test_blink` |
| Stones.DivMod | src/bin/day11.rs:18 | quotient and remainder of the split recombine to the stone |
| Stones.SplitLeftDigits | src/bin/day11.rs:16-19 | the left part of a split has exactly half the digits |
| Stones.LowerBound | src/bin/day11.rs:18 | the quotient is at least the lower bound the digit count gives |
| Stones.UpperBound | src/bin/day11.rs:18 | the quotient is below 10^(n/2) |
| Stones.MulMonotone | src/bin/day11.rs:18 | multiplication by a natural is monotone |
| Stones.BlinkExamples | src/bin/day11.rs:24-29 | the unit test: 0 gives Single(1), 1 gives Single(2024), 2024 gives Split(20, 24) |
| Stones.Children | src/bin/day11.rs:38-43 | a blink turns one stone into one or two |
| Stones.BlinkRow | src/bin/day11.rs:38-43 | a blink of the row at least keeps and at most doubles the number of stones |
| Stones.BlinkRowAppend | src/bin/day11.rs:53 | stones blink independently: the blink of a concatenation is the concatenation of the blinks |
| Stones.EvolveNil | src/bin/day11.rs:53 | an empty row stays empty |
| Stones.EvolveAppend | src/bin/day11.rs:53 | after k blinks, a concatenation is the concatenation of the parts after k blinks |
| Stones.Evolve | src/bin/day11.rs:31-46 | the row after k blinks, the value the memoised `step` counts; `Stones.EvolveAppend` shows stones evolve independently, and `Stones.CountIsLength` and `Stones.Step` that `step` returns the length of this row |
| Stones.Count | src/bin/day11.rs:31-46 | the unmemoised recursion counts at least one stone |
| Stones.CountIsLength | src/bin/day11.rs:31-46 | the recursive count of a stone after k blinks is the length of its row after k blinks |
| Stones.BlinkOne | src/bin/day11.rs:38-43 | a one-stone row blinks into the stone's children |
| Stones.EvolvePair | src/bin/day11.rs:41 | the two halves of a split evolve separately |
| Stones.CountMonotone | src/bin/day11.rs:31-46 | one more blink never removes a stone |
| Stones.Step | src/bin/day11.rs:31-46 | `step` with its memo returns the plain recursive count, keeps every stored entry equal to the recursive count, only adds entries, and stores its own answer; `step(s, 0)` is 1 |
| Stones.Remember | src/bin/day11.rs:44 | storing a correct count keeps the memo sound |
| Stones.CountStones | src/bin/day11.rs:48-62 | the fold with one shared memo returns the number of stones the row becomes |
| Stones.Part1 | src/bin/day11.rs:48-54 | part 1 is the length of the row after 25 blinks |
| Stones.Part2 | src/bin/day11.rs:56-62 | part 2 is the length of the row after 75 blinks |
| Stones.BlinkFacts | src/bin/day11.rs:12-22 | the blinks of the stones 0, 1, 2, 20, 24, 40, 125, 2024, 4048 and 253000 |
| Stones.SplitTwo | src/bin/day11.rs:16-19 | a two-digit stone splits into its digits |
| Stones.SplitFour | src/bin/day11.rs:16-19 | a four-digit stone splits into two two-digit halves |
| Stones.Blink125 | src/bin/day11.rs:20 | 125 becomes 253000 |
| Stones.Blink253000 | src/bin/day11.rs:16-19 | 253000 splits into 253 and 0 |
| Stones.ZeroTriples | src/bin/day11.rs:31-46 | a 0 stone becomes at least three 0 stones within seven blinks |
| Stones.CountSingle | src/bin/day11.rs:39 | the count of a stone that does not split is its successor's count |
| Stones.CountSplit | src/bin/day11.rs:40-42 | the count of a split stone is the sum of its parts' counts |
| Stones.ZeroGrowth | src/bin/day11.rs:31-46 | a 0 stone after 7j+3 blinks has at least 3^j descendants |
| Stones.Pow3Ten | src/bin/day11.rs:91 | 3^10 is 59049 |
| Stones.ExampleGrowth | src/bin/day11.rs:87-92 | the row "125 17" after 7j+5 blinks has more than 3^j stones |
| Stones.Part2ExampleAbove81 | src/bin/day11.rs:87-92 | the row "125 17" after 75 blinks has more than 59049 stones, so the test's expected 81 can not be the answer |
| Reports.Diffs | src/bin/day02.rs:13-17 | one difference per neighbouring pair, each level minus the next |
| Reports.CheckIsSafeAsWritten | src/bin/day02.rs:12-21 | as written the check holds exactly when the report is gradually increasing, gradually decreasing (steps of 1 to 3), or constant |
| Reports.CheckIsSafe | src/bin/day02.rs:12-21 | the corrected check holds exactly when the report is gradually increasing or gradually decreasing |
| Reports.DiffsJudge | src/bin/day02.rs:19-20 | matching every difference against the sign of the first one decides the direction: -1 increasing, 1 decreasing, 0 constant |
| Reports.FirstStep | src/bin/day02.rs:19 | a gradual or constant report shows its direction in its first difference |
| Reports.JudgeIncreasing | src/bin/day02.rs:20 | all differences negative and at most 3 means gradually increasing |
| Reports.JudgeDecreasing | src/bin/day02.rs:20 | all differences positive and at most 3 means gradually decreasing |
| Reports.JudgeConstant | src/bin/day02.rs:20 | all differences zero means constant |
| Reports.Remove | src/bin/day02.rs:34-35 | `remove(i)` drops level i and keeps the order of the rest |
| Reports.Judge | src/bin/day02.rs:12-21 | the check applied to each candidate: a gradual report passes either way, and a constant one passes exactly when the check is the one as written |
| Reports.Tolerable | src/bin/day02.rs:39 | the report or one of its removals passes the check; `Reports.Part2Line` shows `part2_line` computes it, and `Reports.CorrectedIsStricter` and `Reports.ConstantReportTolerable` compare the two checks |
| Reports.SafeIsTolerable | src/bin/day02.rs:32-39 | a report that passes the check, as written or corrected, is accepted by part 2, since the unmodified report is the first candidate |
| Reports.Combinations | src/bin/day02.rs:32-37 | the candidates are the report itself followed by the report without level i, for each i in order |
| Reports.Part2Line | src/bin/day02.rs:29-40 | `part2_line` holds exactly when the report, or the report with exactly one level removed, passes `check_is_safe` as written, constant candidates included; the inputs on which `diffs[0]` panics are its precondition |
| Reports.Part2LineCorrected | src/bin/day02.rs:29-40 | the same search with the corrected check holds exactly when the report, or the report with one level removed, changes gradually in one direction |
| Reports.AnySafe | src/bin/day02.rs:39 | `any` over the candidates, tried in order and stopping at the first that passes, succeeds exactly when the report is tolerable |
| Reports.NotYetRescued | src/bin/day02.rs:39 | the search over candidates, with the check as written or corrected, keeps the fact that no earlier removal passed |
| Reports.RescuedBy | src/bin/day02.rs:39 | one removal that passes the check, as written or corrected, makes `any` succeed |
| Reports.NeverRescued | src/bin/day02.rs:39 | a report that fails the check, as written or corrected, with no removal passing it, makes `any` fail |
| Reports.CorrectedIsStricter | src/bin/day02.rs:39 | whatever part 2 accepts under the corrected check it accepts as written, and the corrected precondition implies the one as written |
| Reports.ConstantReportSafe | src/bin/day02.rs:19-20 | the report 5 5 5 passes the check as written and fails the corrected one |
| Reports.ConstantReportTolerable | src/bin/day02.rs:39 | `part2_line` as written accepts 5 5 5 and 5 5, while under the corrected check no candidate of 5 5 5 passes |
| Reports.BadStep | src/bin/day02.rs:20 | a step of 0 or of more than 3 makes a report neither increasing nor decreasing |
| Reports.MixedSteps | src/bin/day02.rs:20 | a step up and a step down make a report neither increasing nor decreasing |
| Reports.Unsafe | src/bin/day02.rs:20 | a step of 0 or of more than 3 fails the corrected check |
| Reports.StrictUnsafe | src/bin/day02.rs:20 | a step of more than 3, or a step of 0 in a report whose first step is not 0, fails the check as written |
| Reports.UpThenDown | src/bin/day02.rs:74 | 1 3 2 4 5 fails the check as written |
| Reports.SafeDown | src/bin/day02.rs:71 | 7 6 4 2 1 passes the check as written |
| Reports.SafeUp | src/bin/day02.rs:76 | 1 3 6 7 9 passes the check as written |
| Reports.Part1Examples | src/bin/day02.rs:68-86 | the part-1 table under the check as written: 7 6 4 2 1 and 1 3 6 7 9 are safe, the other four are not |
| Reports.Part2Examples | src/bin/day02.rs:88-106 | the part-2 table under `part2_line` as written: only 1 2 7 8 9 and 9 7 6 2 1 stay unsafe; 1 3 2 4 5 and 8 6 4 4 1 become safe |
| Reports.Rescued1 | src/bin/day02.rs:94 | removing the 3 from 1 3 2 4 5 makes it pass |
| Reports.Rescued2 | src/bin/day02.rs:95 | removing a 4 from 8 6 4 4 1 makes it pass |
| Reports.NotTolerable1 | src/bin/day02.rs:92 | 1 2 7 8 9 is not rescued by any removal |
| Reports.NoRemovalHelps1 | src/bin/day02.rs:92 | no single removal makes 1 2 7 8 9 pass the check as written |
| Reports.NotTolerable2 | src/bin/day02.rs:93 | 9 7 6 2 1 is not rescued by any removal |
| Reports.NoRemovalHelps2 | src/bin/day02.rs:93 | no single removal makes 9 7 6 2 1 pass the check as written |
| Guard.ParseItem | src/bin/day06.rs:84-92 | `#` is an obstruction, `^` the guard, any other character floor |
| Guard.DirectionsTurnRight | src/bin/day06.rs:6-29 | the directions are up, right, down, left, so index (d+1)%4 is a quarter turn clockwise, every direction is a unit step, and four turns come back |
| Guard.Step | src/bin/day06.rs:27-31 | with an obstruction ahead the guard turns right and stays put; otherwise it moves exactly one step ahead |
| Guard.Move | src/bin/day06.rs:27-31 | the loop body's turn-or-step is `Step` |
| Guard.TrailGrows | src/bin/day06.rs:26 | each iteration adds the current cell to the visited set |
| Guard.TrailInside | src/bin/day06.rs:25-26 | every visited cell is inside the rectangle and the start is visited |
| Guard.Walk | src/bin/day06.rs:25-31 | the guard's state after n iterations of turn-or-step; `Guard.Move` shows the loop body is one `Step`, and `Guard.Periodic` that a repeated state repeats forever |
| Guard.Trail | src/bin/day06.rs:21-26 | the cells of the first n states; `Guard.TrailGrows` shows each iteration adds the current cell, and `Guard.Part1Body` that the visited set is this trail up to the first exit |
| Guard.GuardOf | src/bin/day06.rs:14-19 | the guard `find` returns holds the guard |
| Guard.OnlyGuard | src/bin/day06.rs:14-19 | with one guard on the map, `find` can return only that one |
| Guard.Part1Body | src/bin/day06.rs:13-35 | the walk runs until the first iteration at which the guard is outside and returns exactly the cells it stood on until then, all inside the rectangle |
| Guard.Part1 | src/bin/day06.rs:37-41 | part 1 is the number of distinct cells visited before the guard leaves |
| Guard.Periodic | src/bin/day06.rs:64-72 | the walk is deterministic: once a state recurs, everything after it recurs |
| Guard.RepeatTraps | src/bin/day06.rs:64-72 | a walk that repeats a state while still inside stays inside forever |
| Guard.StatesGrow | src/bin/day06.rs:65 | each iteration records its (position, direction) state |
| Guard.RecurrenceTraps | src/bin/day06.rs:64-72 | a walk whose current state was seen before, all inside, is trapped |
| Guard.LeavesFree | src/bin/day06.rs:64 | a walk that ever leaves is not trapped |
| Guard.InAllStates | src/bin/day06.rs:64 | a state inside the rectangle is one of its finitely many states |
| Guard.FewerLeft | src/bin/day06.rs:65 | recording a new state leaves fewer to visit, so the loop detection terminates |
| Guard.LoopsStep | src/bin/day06.rs:64-71 | one iteration that finds no repeat keeps the recorded states equal to the walk so far |
| Guard.Loops | src/bin/day06.rs:59-74 | the corrected inner loop reports a loop exactly when the guard, from the start facing up, never leaves the rectangle |
| Guard.TrapCellsAdd | src/bin/day06.rs:54-75 | the fold adds one exactly for each candidate that traps the guard |
| Guard.Part2 | src/bin/day06.rs:43-76 | part 2 is the number of cells visited in part 1, the start excepted, on which one new obstruction traps the guard forever, each candidate judged by the corrected `Guard.Loops`. The inner loop as written does not end when the start is walled in on all four sides (see Findings), and the model counts that candidate as a loop |
| Guard.BoxLabGuard | src/bin/day06.rs:44-49 | the small lab has its guard at (1, 1) |
| Guard.BoxLabCandidates | src/bin/day06.rs:51-52 | in the small lab the guard leaves after five iterations and (0, 1) is the only obstruction candidate |
| Guard.BoxLabTurns | src/bin/day06.rs:29 | walled in above, right and below, the guard turns three times in place |
| Guard.BoxLabLeaves | src/bin/day06.rs:30 | facing left it then walks out |
| Guard.BoxLabWalk | src/bin/day06.rs:25-32 | the five states of the small lab's walk |
| Guard.BoxedAllAround | src/bin/day06.rs:57-58 | with the candidate obstruction added the guard is walled in on all four sides |
| Guard.BoxedProbeRunsForever | src/bin/day06.rs:64-72 | as written the inner loop never ends there: after any number of iterations it is still running at (1, 1), because the cell ahead is never a recorded state |
| Guard.ProbeStep | src/bin/day06.rs:64-71 | one iteration of part 2's inner loop as written: record the state, report a loop when (next cell, direction) was recorded, else turn or step; `Guard.BoxedProbeRunsForever` shows it never reports the boxed-in start |
| Guard.ProbeRun | src/bin/day06.rs:59-74 | the inner loop as written after n iterations; `Guard.BoxedProbeRunsForever` proves it is still running at (1, 1) after any number of iterations |
| Guard.BoxedTrapped | src/bin/day06.rs:64-72 | that guard is trapped, so the corrected loop counts the candidate |
| Guard.BoxedTurns | src/bin/day06.rs:69 | every step from (1, 1) in that lab is a turn |
| Guard.BoxedStays | src/bin/day06.rs:64-72 | the guard never leaves (1, 1) |
| Pages.UnorderedIff | src/bin/day05.rs:10-16 | a manual is flagged unordered exactly when it breaks some rule: two of its pages named by a rule "p before q" stand with q before p |
| Pages.Unordered | src/bin/day05.rs:10-16 | the `any` over pages and earlier pages; `Pages.UnorderedIff` shows it holds exactly when the manual breaks a rule |
| Pages.Middle | src/bin/day05.rs:19 | the middle page of a non-empty manual is one of its pages |
| Pages.After | src/bin/day05.rs:58-65 | the pages grouped under one page are never more than the rules read |
| Pages.AfterMembers | src/bin/day05.rs:58-65 | q is grouped under p exactly when the rule "p before q" was read |
| Pages.ParseRules | src/bin/day05.rs:50-69 | the map has a key for exactly the pages that open some rule, and each key holds its pages in the order their rules were read |
| Pages.GroupedStep | src/bin/day05.rs:58-65 | inserting a first rule for a page or pushing onto its list keeps the grouping exact for the rules read so far |
| Pages.AfterStep | src/bin/day05.rs:63 | one more rule appends its second page to the list of its first page only |
| Pages.KeyStep | src/bin/day05.rs:58-60 | after one more rule the keys are exactly the first pages of the rules read |
| Pages.ParsedRules | src/bin/day05.rs:50-69 | the grouped map answers "is there a rule p before q" exactly as the list of rules does |
| Pages.Insert | src/bin/day05.rs:36-42 | inserting one page lengthens the sorted prefix by one |
| Pages.InsertPermutes | src/bin/day05.rs:36-42 | inserting a page adds exactly that page to the multiset |
| Pages.SortBy | src/bin/day05.rs:35-42 | the sorted copy has as many pages as the manual |
| Pages.SortByPermutes | src/bin/day05.rs:35-42 | the sorted copy is a permutation of the manual |
| Pages.OrderedIff | src/bin/day05.rs:10-16 | a manual is not unordered exactly when no later page has a rule naming an earlier one |
| Pages.SortByOrdered | src/bin/day05.rs:35-42 | a manual that breaks no rule comes out of the sort unchanged |
| Pages.SortByInOrder | src/bin/day05.rs:35-42 | the same, stated over the pairwise order |
| Pages.TotalOnSub | src/bin/day05.rs:36-42 | rules that order a manual's pages totally also order any sub-multiset of them |
| Pages.AppendInOrder | src/bin/day05.rs:36-42 | appending a page that no rule puts before an earlier page keeps a manual in order |
| Pages.InsertOrders | src/bin/day05.rs:36-42 | under a total order, inserting into an ordered prefix leaves it ordered |
| Pages.PrefixInOrder | src/bin/day05.rs:36-42 | every prefix of an ordered manual is ordered |
| Pages.LastAfterAll | src/bin/day05.rs:36-42 | a page placed before the last one leaves the last page after all of the others |
| Pages.InsertTail | src/bin/day05.rs:36-42 | a page not required before the last page of an ordered prefix is required before none of it |
| Pages.SortByOrders | src/bin/day05.rs:35-42 | when the rules order the manual's pages totally, the sorted copy breaks no rule |
| Pages.SortByOrdersIn | src/bin/day05.rs:35-42 | the same, stated over the pairwise order |
| Pages.OrderingUnique | src/bin/day05.rs:35-43 | under a total order there is only one rule-respecting arrangement of the pages, so any correct sort yields the same middle page |
| Pages.InOrderUnique | src/bin/day05.rs:35-43 | two ordered arrangements of the same pages under a total order are equal |
| Pages.TailsAgree | src/bin/day05.rs:35-43 | with equal first pages, the rests hold the same pages, still totally ordered and in order |
| Pages.SuffixInOrder | src/bin/day05.rs:36-42 | dropping the first page keeps a manual in order |
| Pages.FirstIsEqual | src/bin/day05.rs:35-43 | two ordered arrangements of the same pages under a total order start with the same page |
| Pages.SortedCopy | src/bin/day05.rs:35-42 | the in-place insertion sort of a copy of the manual yields the sorted copy |
| Pages.SortByStep | src/bin/day05.rs:35-42 | sorting one more page inserts it into the sorted prefix |
| Pages.InsertLast | src/bin/day05.rs:36-42 | sinking one page into the sorted prefix of the array leaves that prefix equal to the inserted sequence and the rest of the array untouched |
| Pages.Placed | src/bin/day05.rs:36-42 | shifting the pages right of the hole and dropping the page in gives the prefix with the page spliced in |
| Pages.InsertSplit | src/bin/day05.rs:36-42 | the page goes in just before the run of pages it has a rule ahead of at the end of the prefix |
| Pages.PartsSplit | src/bin/day05.rs:8-48 | part 1 and part 2 add up over the manuals: the total of two lists is the sum of their totals |
| Pages.Part1 | src/bin/day05.rs:8-22 | the sum of the middle pages of the manuals that break no rule; `Pages.OneManual` and `Pages.PartsSplit` show it adds up manual by manual, each ordered one adding its middle page |
| Pages.Part2Spec | src/bin/day05.rs:24-48 | the sum of the middle pages of the sorted copies of the unordered manuals; `Pages.Part2` shows the imperative fold computes it, and `Pages.Part2Correct` that under a total order each term is the middle of the one correct arrangement |
| Pages.OneManual | src/bin/day05.rs:8-48 | one manual adds its middle page to part 1 when it breaks no rule, and the middle page of its sorted copy to part 2 when it does |
| Pages.Part2Correct | src/bin/day05.rs:24-48 | when the rules order an unordered manual's pages totally, part 2 adds the middle page of its one correctly ordered arrangement |
| Pages.Part2 | src/bin/day05.rs:24-48 | the imperative fold over the manuals returns part 2's total |
| Pages.ExampleOrdered | src/bin/day05.rs:93-125 | the example's first three manuals break no rule |
| Pages.ExampleUnordered | src/bin/day05.rs:93-125 | the example's last three manuals each break a rule |
| Pages.ExampleSorted1 | src/bin/day05.rs:129-161 | the example's first unordered manual sorts to 97,75,47,61,53 |
| Calibration.Prefixed | src/bin/day07.rs:13-18 | prefixing every operator to every shorter variation gives one variation per pair |
| Calibration.PrefixedMembers | src/bin/day07.rs:13-18 | every prefixed variation starts with an operator from the list and continues with a shorter variation |
| Calibration.PrefixedHas | src/bin/day07.rs:13-18 | every operator followed by every shorter variation is among the prefixed variations |
| Calibration.Variations | src/bin/day07.rs:13-18 | the n-fold cartesian product has (number of operators)^n members, each n long and drawn from the operators |
| Calibration.ExtendChoices | src/bin/day07.rs:13-18 | prefixing keeps every member drawn from the operators and one longer |
| Calibration.VariationsComplete | src/bin/day07.rs:13-18 | every sequence of n operators drawn from the list is one of the variations |
| Calibration.ConcatSplits | src/bin/day07.rs:58 | the concatenation `acc * 10^(digits of part) + part` splits back into acc and part |
| Calibration.ConcatDigits | src/bin/day07.rs:58 | the concatenation arm `acc * 10^(ilog10(part) + 1) + part`; `Calibration.ConcatSplits` shows its digits split back into acc and part |
| Calibration.Apply | src/bin/day07.rs:44-59 | the closures' match on the operator; `Calibration.Part1NoConcat` shows that part 1 never reaches its panicking arm |
| Calibration.LeftToRight | src/bin/day07.rs:26-29 | the fold applies operators strictly left to right: the last operator combines the value of everything before it with the last part |
| Calibration.EvalFrom | src/bin/day07.rs:26-29 | the fold over `parts[1..]` with `op[i]` between the accumulator and the i-th part; `Calibration.LeftToRight` and `Calibration.EvalFromSnoc` show it applies the operators strictly left to right |
| Calibration.Eval | src/bin/day07.rs:26-29 | the fold started at `parts[0]`; `Calibration.NoPrecedence` shows on examples that no operator takes precedence |
| Calibration.EvalFromSnoc | src/bin/day07.rs:26-29 | the same for the fold over the remaining parts from an accumulator |
| Calibration.NoPrecedence | src/bin/day07.rs:26-29 | 2 + 3 * 4 folds to 20, and 81 + 40 * 27 to 3267 |
| Calibration.EvaluableSafe | src/bin/day07.rs:58 | when no part after the first is 0, every variation is safe for concatenation (the digit count of 0 panics) |
| Calibration.CalibratedIff | src/bin/day07.rs:25-32 | searching the variations succeeds exactly when some sequence of the given operators folds the parts to the test value |
| Calibration.SolvableMonotone | src/bin/day07.rs:40-60 | a calibration solvable with fewer operators is solvable with more |
| Calibration.Fold | src/bin/day07.rs:20-38 | the calibration total never exceeds the sum of all test values |
| Calibration.Part1NoConcat | src/bin/day07.rs:42-47 | part 1's variations never contain the concatenation operator, so its panic arm is never reached |
| Calibration.FoldCounts | src/bin/day07.rs:24-37 | one more calibration adds its test value exactly when some operator sequence folds its parts to it |
| Calibration.Part1AtMostPart2 | src/bin/day07.rs:40-60 | part 1's total is at most part 2's total |
| Calibration.Part1 | src/bin/day07.rs:40-49 | the calibration total with + and *; `Calibration.FoldCounts` shows each calibration adds its test value exactly when some operator sequence makes it true |
| Calibration.Part2 | src/bin/day07.rs:51-60 | the same with concatenation added; `Calibration.Part1AtMostPart2` shows it is at least part 1. Its precondition excludes every 0 part after the first, which is more than the source's panic (see "## Left out") |
| Calibration.ExampleWitnesses | src/bin/day07.rs:89-116 | 3267 = 81 + 40 * 27 is solvable with part 1's operators, and 7290 = (6 * 8 concatenated with 6) * 15 with part 2's |
| Calibration.Eval7290 | src/bin/day07.rs:105-116 | 6 * 8, concatenated with 6, times 15 folds to 7290 |
| Garden.AdjacentDirections | src/bin/day12.rs:7-12 | the four directions reach exactly the plots beside and above or below a plot |
| Garden.SameCount | src/bin/day12.rs:38-51 | at most k of the first k directions lead to a same-plant plot |
| Garden.Fences | src/bin/day12.rs:37-52 | a plot has at most four fence segments: four minus its same-plant neighbours |
| Garden.PerimeterAdd | src/bin/day12.rs:52 | adding a plot's fence segments to the running perimeter gives the perimeter of the grown set |
| Garden.PerimeterRemove | src/bin/day12.rs:33-53 | the perimeter of a set is the same whichever plot is counted last |
| Garden.ReachSelf | src/bin/day12.rs:31 | every plot is reachable from itself |
| Garden.ReachStep | src/bin/day12.rs:38-47 | a walk extends by one same-plant neighbour |
| Garden.ReachSymmetric | src/bin/day12.rs:38-47 | reachability through same-plant neighbours is symmetric |
| Garden.ClosedReach | src/bin/day12.rs:33-53 | a set that no same-plant neighbour leaves holds every plot reachable from it |
| Garden.RegionsDisjointOrEqual | src/bin/day12.rs:21-24 | two regions that share a plot are the same region, so a plot already counted is never filled again |
| Garden.Within | src/bin/day12.rs:21-24 | a plot of one region is in every region sharing a plot with it |
| Garden.ReachThrough | src/bin/day12.rs:38-47 | reachability is transitive |
| Garden.Explore | src/bin/day12.rs:37-51 | the four neighbours of a candidate: the fence count equals four minus the same-plant neighbours, and the queue gains exactly the same-plant neighbours neither counted nor queued, each once |
| Garden.Fill | src/bin/day12.rs:26-53 | the breadth-first fill from an uncounted seed returns the seed's whole region, disjoint from the counted plots, with its area and its perimeter |
| Garden.Visit | src/bin/day12.rs:34-52 | one pop of the queue adds the head to the region, raises the area by one, counts its fence segments and keeps the fill's invariant |
| Garden.FillHead | src/bin/day12.rs:34 | the head of the queue is a plot not yet in the region |
| Garden.FillAdvance | src/bin/day12.rs:34-52 | taking the head keeps the fill's invariant and leaves fewer plots outside the region |
| Garden.FillStep | src/bin/day12.rs:34-52 | the frontier invariant survives one candidate: every same-plant neighbour of the region is in it or queued |
| Garden.FillDone | src/bin/day12.rs:33-53 | an empty queue leaves a closed connected region containing the seed |
| Garden.UnionHolds | src/bin/day12.rs:21-56 | each region found is part of the plots counted |
| Garden.Part1 | src/bin/day12.rs:14-57 | the regions found split the whole map into disjoint regions, and part 1 is the sum over them of area times perimeter |
| Garden.Fold | src/bin/day12.rs:21-56 | one call of the fold's closure keeps the fold's invariant for one more plot |
| Garden.FoldSkip | src/bin/day12.rs:22-24 | a plot already counted leaves the fold unchanged |
| Garden.FoldStep | src/bin/day12.rs:26-55 | a plot not yet counted adds its whole region and that region's price |
| Garden.FillSides | src/bin/day12.rs:71-178 | the part 2 fill returns the seed's whole region with its area and its number of sides |
| Garden.VisitSides | src/bin/day12.rs:82-134 | one pop of the part 2 fill keeps the four segment sets equal to the region's western, eastern, northern and southern edges |
| Garden.Part2 | src/bin/day12.rs:59-182 | the regions found split the whole map, and part 2 is the sum over them of area times number of sides |
| Garden.FoldSides | src/bin/day12.rs:66-181 | one call of part 2's closure keeps the fold's invariant for one more plot |
| Garden.CoveringStep | src/bin/day12.rs:21-56 | adding a new region keeps the counted plots split into regions and covering the plots seen |
| Garden.Covered | src/bin/day12.rs:19-21 | once every key has been seen, the counted plots are the whole map |
| Garden.AddRegion | src/bin/day12.rs:21-56 | a region disjoint from the counted plots extends their partition |
| FenceSides.Enclose | src/bin/day12.rs:85-120 | after a plot joins the region, the four sets are exactly the grown region's plots with a fence on their west, east, north and south sides |
| FenceSides.PairStep | src/bin/day12.rs:85-102 | the two updates for a pair of opposite sides give the grown region's segments on both sides |
| FenceSides.EdgeOf | src/bin/day12.rs:85-120 | a plot next to a plot outside the region has its segment towards it exactly when it is in the region |
| FenceSides.UpdateAlgebra | src/bin/day12.rs:85-102 | the take-or-insert updates written on plain sets |
| FenceSides.EdgesGrow | src/bin/day12.rs:85-120 | growing a region by one plot takes away the segment facing it and adds its own unless its neighbour is in the region |
| FenceSides.CountSides | src/bin/day12.rs:137-178 | counting runs in the four segment sets gives the region's number of sides |
| FenceSides.CountRuns | src/bin/day12.rs:139-156 | taking maximal runs out one at a time adds one side per run start |
| FenceSides.TakeForward | src/bin/day12.rs:141-147 | taking first, first+1, ... while present removes exactly that span of the line |
| FenceSides.TakeBackward | src/bin/day12.rs:148-154 | then taking first-1, first-2, ... removes the rest of the maximal run through first |
| FenceSides.RemoveRun | src/bin/day12.rs:139-156 | taking out a maximal run removes exactly one run start and shrinks the set |
| FenceSides.RunStartKept | src/bin/day12.rs:139-156 | the other run starts are untouched by the removal |
| FenceSides.SidesAtMostSegments | src/bin/day12.rs:137-178 | a region never has more sides than fence segments |
| FenceSides.RunStartsWithin | src/bin/day12.rs:139-156 | a set has no more runs than plots |
| FenceSides.SinglePlotSides | src/bin/day12.rs:137-178 | a single plot has four sides |
| Trails.StepsDown | src/bin/day10.rs:52 | the checked-subtraction test (a negative difference reads as 99) accepts exactly a neighbour one lower |
| Trails.ReachesStep | src/bin/day10.rs:49-56 | one more downhill step extends what a summit reaches |
| Trails.ClosedHoldsReach | src/bin/day10.rs:39-57 | a set holding the summit and closed under downhill steps holds every plot it reaches |
| Trails.ReachesDownhill | src/bin/day10.rs:52 | heights strictly fall along a trail: what a summit reaches is on the map and lower, except the summit itself |
| Trails.ReachesIffTrails | src/bin/day10.rs:13-131 | a plot is reachable from a summit exactly when at least one downhill path leads there, so part 1 counts summits where part 2 counts paths |
| Trails.ReachesIffTrailsFrom | src/bin/day10.rs:13-131 | the same for paths whose first step takes direction k or a later one |
| Trails.Bump | src/bin/day10.rs:44-47 | `and_modify(+1).or_insert(1)` raises the count of one plot by one and leaves every other count alone |
| Trails.PushDown | src/bin/day10.rs:49-56 | the neighbour loop appends to the queue the lower neighbours in direction order |
| Trails.DownFromUnfold | src/bin/day10.rs:49-56 | one direction of the neighbour loop appends at most that neighbour |
| Trails.DownFrom | src/bin/day10.rs:49-56 | the entries the neighbour loop queues, directions k and on; `Trails.DownFromSteps`, `Trails.DownFromOnMap` and `Trails.DownFromHas` show they are exactly the downhill steps from the plot, with their heights |
| Trails.DownFromSteps | src/bin/day10.rs:49-56 | every queued entry is a downhill step from the plot, with its height |
| Trails.DownFromOnMap | src/bin/day10.rs:49-56 | the queued entries are plots of the map carrying their own heights |
| Trails.DownFromHas | src/bin/day10.rs:49-56 | every downhill step from the plot is queued |
| Trails.Summit1 | src/bin/day10.rs:26-58 | the search from one summit adds one to the count of exactly the plots it reaches by one step or more |
| Trails.Pop | src/bin/day10.rs:40-56 | one pop of the queue skips a visited plot, and otherwise counts it, marks it visited and queues its lower neighbours, keeping the search invariant |
| Trails.StartQueue | src/bin/day10.rs:27-38 | the first queue holds the summit's lower neighbours, all reached from it, with every step out of the summit queued |
| Trails.ReachSelf | src/bin/day10.rs:28 | a summit reaches itself |
| Trails.SkipVisited | src/bin/day10.rs:41-43 | popping a visited plot keeps the search state |
| Trails.VisitStep | src/bin/day10.rs:44-56 | visiting the head of the queue keeps every queued plot reached and every step out of the visited set queued |
| Trails.ReachingDistinct | src/bin/day10.rs:16-22 | over a list holding each plot once, as a map's key list does, the count is the number of distinct summits reaching the plot |
| Trails.Part1 | src/bin/day10.rs:13-74 | part 1 sums, over the height-0 plots, the number of summits that reach each |
| Trails.PendingAppend | src/bin/day10.rs:99-113 | the paths pending in two queues add up |
| Trails.PendingDown | src/bin/day10.rs:105-112 | the plots queued for a plot carry exactly the downhill paths out of it |
| Trails.WeightAppend | src/bin/day10.rs:99-113 | the termination weight of two queues adds up |
| Trails.DownHeights | src/bin/day10.rs:105-112 | at most four plots are queued for a plot, each one lower, and none for height 0 |
| Trails.WeightUniform | src/bin/day10.rs:99-113 | a queue of one height weighs its length times 5^height |
| Trails.WeightDown | src/bin/day10.rs:99-113 | what a plot of height h queues weighs less than 5^h, so the visited-free search of part 2 ends |
| Trails.Summit2 | src/bin/day10.rs:89-114 | the search from one summit without a visited set adds to each plot's count the number of downhill paths of one step or more from the summit to it |
| Trails.PopStep | src/bin/day10.rs:100-112 | following the head of the queue counts it once, queues its onward paths and lowers the weight |
| Trails.Part2 | src/bin/day10.rs:76-130 | part 2 sums, over the height-0 plots, the number of downhill paths from a summit to each |
| Trails.ScoreAtMostRating | src/bin/day10.rs:13-130 | a trailhead's rating is at least its score |
| WordSearch.ParseWithCoords | src/bin/day04.rs:61-70 | the grid holds exactly the cells (column, line) of the input, each with its character |
| WordSearch.SpellsOnGrid | src/bin/day04.rs:23-26 | a word can only be read over cells of the grid, starting with its first letter |
| WordSearch.XmasSpelled | src/bin/day04.rs:18-33 | an X followed by M, A and S one, two and three steps along a direction is exactly the word XMAS written along it |
| WordSearch.MatchesAreOccurrences | src/bin/day04.rs:17-36 | the (cell, direction) pairs the fold tests are exactly the occurrences of XMAS |
| WordSearch.NeighborsDistinct | src/bin/day04.rs:6-15 | the eight directions are different from each other |
| WordSearch.CountDirectionsCounts | src/bin/day04.rs:19-33 | the inner fold adds the number of directions along which MAS follows the cell |
| WordSearch.MasAfter | src/bin/day04.rs:23-29 | M, A and S one, two and three steps along a direction; `WordSearch.XmasSpelled` shows that after an X this is the word XMAS |
| WordSearch.MatchesAt | src/bin/day04.rs:17-35 | an X cell has one match per direction spelling MAS after it, and any other cell none |
| WordSearch.SplitHead | src/bin/day04.rs:17 | a list without repeats is its head plus the set of its tail, the head not in the tail |
| WordSearch.MatchesSplit | src/bin/day04.rs:17-36 | the matches of two disjoint sets of cells are the disjoint union of their matches |
| WordSearch.XmasFoldCounts | src/bin/day04.rs:17-36 | the outer fold over distinct cells adds the number of XMAS matches among them |
| WordSearch.XmasFold | src/bin/day04.rs:17-36 | the outer fold over the cells; `WordSearch.XmasFoldCounts` shows it adds the number of XMAS matches among distinct cells |
| WordSearch.Part1Counts | src/bin/day04.rs:5-37 | over the map's key list, part 1 is the number of occurrences of XMAS in any of the eight directions on the whole grid |
| WordSearch.Part1 | src/bin/day04.rs:5-37 | part 1 over a list of cells; `WordSearch.Part1Counts` shows that over the key list it is the number of XMAS occurrences on the grid |
| WordSearch.Collect | src/bin/day04.rs:44 | collecting options gives all the values exactly when none is missing, and None otherwise |
| WordSearch.CrossMeansXmas | src/bin/day04.rs:40-55 | an A whose four corners match one of the four listed patterns is exactly an A whose two diagonals each spell MAS in one direction or the other |
| WordSearch.CrossAt | src/bin/day04.rs:40-55 | an A whose four corners exist and match one of the four listed patterns; `WordSearch.CrossMeansXmas` shows this is exactly an X-MAS cross |
| WordSearch.CrossFoldCounts | src/bin/day04.rs:40-58 | the fold over distinct cells adds the number of X-MAS crosses centred among them |
| WordSearch.CrossFold | src/bin/day04.rs:40-58 | the part-2 fold over the cells; `WordSearch.CrossFoldCounts` shows it adds the number of crosses centred among distinct cells |
| WordSearch.Part2Counts | src/bin/day04.rs:39-59 | over the map's key list, part 2 is the number of X-MAS crosses on the whole grid |
| WordSearch.Part2 | src/bin/day04.rs:39-59 | part 2 over a list of cells; `WordSearch.Part2Counts` shows that over the key list it is the number of X-MAS crosses on the grid |
| Antennas.AntennaAt | src/bin/day08.rs:10 | the cell parser keeps every character but '.', unchanged |
| Antennas.Group | src/bin/day08.rs:12-22 | every antenna of the grid is listed once, under its own frequency, each list non-empty, and nothing else is listed |
| Antennas.ParseAntennas | src/bin/day08.rs:8-25 | the size is the text's map size, the antennas lie inside it, and c is listed under ch exactly when the text holds ch, not '.', at c |
| Antennas.MapSizeOfParse | src/lib.rs:59-64 | the size the grid loader reports is (widest line minus one, number of lines minus one), each 0 when there is none |
| Antennas.Width | src/lib.rs:63-64 | the widest line is at least as long as every line and as long as one of them |
| Antennas.Beyond | src/bin/day08.rs:35-37 | `a + (a - b)` lies as far beyond a as a lies from b |
| Antennas.Harmonic | src/bin/day08.rs:56-59 | `a + dist * k` is a at k = 0, the part 1 point at k = 1, and b at k = -1 |
| Antennas.InMapSet | src/bin/day08.rs:36-40 | a point is marked exactly when it is inside the map |
| Antennas.Resonate | src/bin/day08.rs:33-41 | one pair of part 1 marks `a + dist` and `b - dist` when each is inside the map |
| Antennas.StepsApart | src/bin/day08.rs:57-61 | k steps of a nonzero distance move at least k along one axis |
| Antennas.WithinReach | src/bin/day08.rs:57-61 | inside the map, the walk from a leaves after at most width + height steps, so the `while` loop ends |
| Antennas.ScaleBetween | src/bin/day08.rs:57-61 | multiples of one number between 0 and k lie between 0 and its k-th multiple |
| Antennas.LineConvex | src/bin/day08.rs:57-61 | the map is convex along a line: points between two inside points are inside |
| Antennas.LinePrefixStep | src/bin/day08.rs:57-61 | one more step adds one more point to the walked prefix |
| Antennas.Walk | src/bin/day08.rs:54-66 | one pair of part 2 marks every point `a + dist * k`, k >= 0, inside the map, and b when it is inside |
| Antennas.ResonateRow | src/bin/day08.rs:32-42 | the pairs with first antenna i mark the union of their points |
| Antennas.ResonateGroup | src/bin/day08.rs:32-42 | the ordered pairs of distinct positions of one frequency mark the union of their points |
| Antennas.ResonancesStep | src/bin/day08.rs:31-43 | one more frequency adds its pairs' points |
| Antennas.CountResonances | src/bin/day08.rs:27-46 | the count is the number of distinct points marked by the pairs of all frequencies, whatever order the frequencies come in |
| Antennas.RowMember | src/bin/day08.rs:32 | a point is marked by row i exactly when some pair (i, j), j != i, marks it |
| Antennas.GroupMember | src/bin/day08.rs:32 | a point is marked by a frequency exactly when some ordered pair of distinct positions marks it |
| Antennas.PairMember1 | src/bin/day08.rs:33-41 | part 1's pair (a, b) marks exactly the points beyond a and beyond b that are inside the map |
| Antennas.PairMember2 | src/bin/day08.rs:54-66 | part 2's pair (a, b) marks exactly the inside points `a + dist * k`, k >= 0, and b |
| Antennas.HarmonicReversed | src/bin/day08.rs:54-66 | walking back from a past b is walking forward from b past a |
| Antennas.GroupAntinodes1 | src/bin/day08.rs:32-42 | part 1 over one frequency marks exactly the inside points beyond one antenna from another |
| Antennas.GroupAntinodes2 | src/bin/day08.rs:53-67 | part 2 over one frequency marks exactly the inside points at any whole multiple, on either side, of a pair's distance, although each pair walks one way only |
| Antennas.HarmonicInGroup | src/bin/day08.rs:53-67 | a multiple on the far side of b is marked by the reversed pair |
| Antennas.MarkedIsHarmonic | src/bin/day08.rs:54-66 | what a pair marks in part 2 lies on its line at a whole multiple |
| Antennas.HarmonicIsMarked | src/bin/day08.rs:57-61 | every inside forward multiple is marked |
| Antennas.ResonancesMember | src/bin/day08.rs:27-46 | part 1's set is exactly the inside points beyond an antenna from another of its frequency |
| Antennas.ResonancesMember2 | src/bin/day08.rs:48-71 | part 2's set is exactly the inside points at a whole multiple of a same-frequency pair's distance |
| Antennas.PairsAreSameFrequency | src/bin/day08.rs:8-25 | ordered pairs of distinct list positions are exactly the pairs of different cells holding one frequency |
| Antennas.ResonancesAreAntinodes | src/bin/day08.rs:27-71 | the points the loops mark are exactly the text's antinodes inside the map |
| Antennas.Part1 | src/bin/day08.rs:27-46 | part 1 is the number of antinodes inside the map |
| Antennas.Part2 | src/bin/day08.rs:48-71 | part 2 is the number of antinodes, resonant harmonics included, inside the map |
| Antennas.HarmonicsInclude | src/bin/day08.rs:27-71 | every part 1 antinode is a part 2 antinode, and every antenna sharing its frequency is one |
| Lists.InsertSorted | src/main.rs:43-44 | inserting into an ascending list keeps it ascending and adds exactly that element |
| Lists.TailAscending | src/main.rs:43-44 | the rest of an ascending list is ascending and no smaller than its head |
| Lists.ConsAscending | src/main.rs:43-44 | a least element in front of an ascending list keeps it ascending |
| Lists.Sorted | src/main.rs:43-44 | the reference arrangement is ascending and a permutation of the list |
| Lists.HeadsAgree | src/main.rs:43-44 | two ascending arrangements of the same elements start with the same element |
| Lists.AscendingUnique | src/main.rs:43-44 | a list has only one ascending arrangement |
| Lists.SortedIsUnique | src/main.rs:43-44 | every ascending permutation of a list is its reference arrangement, so any correct sort agrees with it |
| Lists.Swap | src/main.rs:43-44 | exchanging two elements changes those two positions only and keeps the multiset |
| Lists.InsertLast | src/main.rs:43-44 | sinking the next element into the ascending prefix makes one more element ascending, keeps the multiset and leaves the rest of the array alone |
| Lists.Sort | src/main.rs:43-44 | `sort()` rearranges the array in place into the ascending arrangement of its old contents |
| Lists.AbsDiff | src/main.rs:8 | `abs_diff` is the non-negative difference of the two ids |
| Lists.Part1 | src/main.rs:6-13 | the loop over the zipped lists adds up the distance of every shared position |
| Lists.DistanceTruncates | src/main.rs:8 | `zip` stops at the shorter list: only the shared positions count |
| Lists.Distance | src/main.rs:6-13 | the sum of `abs_diff` over the zipped lists; `Lists.Part1` shows the loop computes it, and `Lists.DistanceTruncates` and `Lists.DistanceSymmetric` state its properties |
| Lists.DistanceSymmetric | src/main.rs:6-13 | the distance does not depend on which list comes first, and it is zero exactly when the lists agree on every shared position |
| Lists.MatchesCount | src/main.rs:18 | each id adds itself times the number of times it occurs in the second list |
| Lists.CountEqual | src/main.rs:18 | `filter(eq).count()` is the number of occurrences of the id in the second list |
| Lists.Part2 | src/main.rs:15-23 | the loop over the first list adds up the similarity score |
| Lists.SimilarityByCounts | src/main.rs:18 | the second list matters only through how often each id occurs in it |
| Lists.Similarity | src/main.rs:15-23 | each id of the first list times its count in the second, summed; `Lists.Part2` shows the loop computes it, and `Lists.SimilarityByCounts` and `Lists.SimilarityPermutes` state its properties |
| Lists.SimilarityConsRight | src/main.rs:18 | one more id in front of the second list adds its matches in the first |
| Lists.SimilarityEmpty | src/main.rs:18 | nothing matches an empty list |
| Lists.SimilaritySymmetric | src/main.rs:15-23 | the similarity score is symmetric in the two lists |
| Lists.SimilarityPermutes | src/main.rs:15-47 | rearranging either list leaves the similarity unchanged, so sorting first does not affect part 2 |
| Lists.Solve | src/main.rs:43-47 | after the two in-place sorts, part 1 is the distance between the ascending arrangements and part 2 is the similarity of the lists as read |

## Left out

- Every `main`: reading the input files, `println!` and `Instant` timing are I/O and are not modelled.
- The `Debug` renderer and the `dbg!` output of `src/bin/day15.rs` only format text for output.
- `src/bin/day03.rs` and `src/bin/day14.rs` are not part of this model. The first is regex matching and match ordering done by libraries. The second relies on `Coord` operations that `src/lib.rs` does not define, and its part 2 is an open-ended search for a picture.
- Text parsers built on nom, regex, `split_whitespace` and `str::parse` are not modelled: each puzzle starts from parsed values. The exceptions are the digit reading of `src/bin/day09.rs`, the grid loaders of `src/lib.rs` and `src/bin/day04.rs`, and the character readers of days 6 and 8, which are modelled.
- Fixed-width arithmetic (u32, u64, i32, i64) is unbounded here. Overflow, such as the stone times 2024 in u64, the i64 products in `solve` and u64 wrap-around, is not modelled. For example, `src/bin/day13.rs:110-118` casts a negative press count to u64, and the as-written fold adds it as a plain integer instead.
- A panic in the source becomes a precondition:
  - a map without a robot or without a guard, where `find(..).unwrap()` panics (`src/bin/day15.rs:26`, `src/bin/day06.rs:14-19` and `src/bin/day06.rs:44-49`). The preconditions `|CellsOf(g, Robot)| == 1` and `|CellsOf(g, Guard)| == 1` exclude this case. They also exclude a map with several robots or guards: the source then silently picks one in hash order, and the model does not describe that choice;
  - a character that is not a digit in the disk map, where `to_digit(10).unwrap()` panics (`src/bin/day09.rs:17` and `src/bin/day09.rs:21`). A trailing newline is such a character. This is the `AllDigits` precondition of `Disk.Parse`, `Disk.Part1` and `Disk.Part2`;
  - an empty manual, where `get(len / 2).unwrap()` panics (`src/bin/day05.rs:19` and `src/bin/day05.rs:43`). This is the `|manual| >= 1` precondition of `Pages.Middle`;
  - a report too short for `diffs[0]`, or a report of two levels that fails the check, since its one-level candidates have no difference (`Reports.Checkable`);
  - a calibration without parts, or a 0 part after the first when concatenation is offered (see the `Calibration.Part2` line below);
- Guard.Part1Body: it requires that the guard leaves the map after some number of steps, because the source loop never ends when the guard stays inside.
- Guard.Part1: the same precondition, for the same reason.
- Guard.Part2: the same precondition, since it starts from the part 1 walk.
- The `sort_by` of `src/bin/day05.rs:35-42` is replaced by an insertion sort with the same comparator. Rust's merge sort may order pages differently under a comparator that is not a total order. For a total order, `Pages.OrderingUnique` shows that every correct sort gives the same result.
- Part 1 of `src/bin/day05.rs` and part 1 of `src/bin/day04.rs` are pure folds. Their contracts are the lemmas beside them (`Pages.OneManual`, `Pages.PartsSplit`, `WordSearch.Part1Counts`), not an ensures of their own.
- Calibration.Part2: its precondition, shared with `Calibration.Evaluable`, `Calibration.Fold` and `Calibration.FoldCounts` when Concat is offered, excludes every calibration with a 0 part after the first. That is stronger than the source's panic condition. `ilog10(0)` panics only when `any` reaches a variation that applies Concat to a 0 part before some variation matches. `multi_cartesian_product` yields the all-Add variation first, so the source handles `1: 1 0`: `[Add]` gives 1, the calibration adds 1, and Concat is never tried. The model does not describe such inputs.
- Calibration.Fold: its own ensures states only that the total is at most the sum of all test values. The exact per-calibration statement is `Calibration.FoldCounts`.
- `itertools`' `permutations(2)` and `multi_cartesian_product` are replaced by the model's own definitions: ordered pairs of distinct positions, and `Calibration.Variations`. `Calibration.Variations(0, ops)` is `[[]]`, one empty choice, so a calibration of one part is counted when that part equals the test value. This fixes how `multi_cartesian_product` behaves over zero iterators, and `itertools` releases differ on it: under the older behaviour the product is empty and a one-part calibration is never counted.
- Many example totals of the unit tests are not evaluated, because evaluating literal maps of that size is too costly for the verifier:
  - 2028, 10092 and 9021 for day 15;
  - 1928 and 2858 for day 9;
  - 55312 for day 11;
  - 41 and 6 for day 6;
  - 143 and 123 for day 5;
  - 3749 and 11387 for day 7;
  - 1930, 236, 368 and 1206 for day 12;
  - 36 and 81 for day 10;
  - 18 and 9 for day 4;
  - 14 and 34 for day 8.
  
  The ones proved are:
  - both day 13 totals;
  - the day 13 solver vectors;
  - the day 11 blink test;
  - the day 2 tables, report by report;
  - single manuals of day 5;
  - single calibrations of day 7.

## Findings

| source | as written | input that shows it | evidently intended | confidence | as-written member | corrected member |
|---|---|---|---|---|---|---|
| src/bin/day13.rs:110-118 | part 1 keeps any solution with `a < 100 && b < 100`, negative press counts included | a machine whose only solution presses B -1 times (`Claw.NegativePressesCounted`): counted for 8 tokens as plain integers; in u64, `b as u64` wraps | only winnable machines, with 0 to 99 presses of each button, are counted (`Claw.Prize1Complete`) | not executed | Claw.Prize1AsWritten | Claw.Prize1 |
| src/bin/day13.rs:133-138 | part 2 adds the cost of any solution after moving the prize, negative press counts included | a moved prize reachable only with -1 presses of B (`Claw.NegativePressesCounted2`) | only solutions with non-negative presses are counted (`Claw.Prize2Complete`) | not executed | Claw.Prize2AsWritten | Claw.Prize2 |
| src/bin/day02.rs:19-20 | the first difference's sign is the direction, and a first difference of 0 makes every difference 0 acceptable | the report 5 5 5 passes the check as written (`Reports.ConstantReportSafe`) | a safe report is strictly increasing or strictly decreasing, by 1 to 3 at a time | not executed | Reports.CheckIsSafeAsWritten | Reports.CheckIsSafe |
| src/bin/day02.rs:39 | every candidate of part 2 goes through the check as written, so the constant-report defect carries over | 5 5 5, and 5 5, are accepted (`Reports.ConstantReportTolerable`) | part 2 accepts a report that changes gradually in one direction once at most one level is removed; the corrected search does exactly that (`Reports.CorrectedIsStricter` relates the two) | not executed | Reports.Part2Line | Reports.Part2LineCorrected |
| src/bin/day06.rs:64-72 | the repeat check looks up (next position, direction) rather than the current state, so turning in place never trips it | a guard at (1, 1) walled in on three sides, with the candidate obstruction closing the fourth (`Guard.BoxLabCandidates`): the loop turns forever (`Guard.BoxedProbeRunsForever`) | a candidate that keeps the guard inside forever counts as a loop; the corrected loop checks the current state and counts this one (`Guard.BoxedTrapped`) | not executed | Guard.BoxedProbeRunsForever | Guard.Loops |
