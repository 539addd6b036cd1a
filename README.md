# Tower of Hanoi on linked disk stacks

This project models the Tower of Hanoi program of
`Tower_Of_Hanoi/Sources/main.cpp`, with its stack class
(`Tower_Of_Hanoi/Sources/DiskStack.cpp`) and its node class
(`SharedHeaders/Node.h`), and proves what the program computes.

- A **disk** is a `Node` carrying its size as data.
- A **tower** is a `DiskStack`: a stack linked through the nodes' right
  pointers.
- Before solving, `main` pushes the disks nbDisks, ..., 1 onto tower A. It
  links each disk to the next smaller one through the left pointers. The
  recursive solver `TowerOfHanoi` walks that left chain. It moves
  one disk at a time through the gate `MoveDiskToDestination`, which
  refuses to put a disk on a smaller one.
- `PrintStacks` writes a snapshot of the three towers, labelled with the
  global counter `nbIterations`. It then increments the counter.

The model keeps the program's own form:

- **Module `Nodes`** is the node class, with its getters and setters.
- **Module `DiskStacks`** is the stack class. The right links are
  mutable fields of the nodes. A ghost sequence of nodes describes the
  list ("linked, acyclic, top first"). Push, pop, the destructor's drain
  loop and the print traversal are methods with loops and frames.
- **Module `Hanoi`** holds the globals of `main.cpp` (the three towers
  and `nbIterations`) as the fields of one `Towers` object. The functions
  of `main.cpp` are its methods: the setup loop, the move gate, the
  recursive solver and the snapshot printer.
- **Module `NodeModel`** holds the node-list functions that the methods
  are proved against: `TransferNodes` for the move gate and `SolveNodes`
  for the recursion.
- **Module `HanoiModel`** holds the same logic on the disk sizes alone
  (`Transfer`, `Solve`). It proves the puzzle's properties:
  - no disk is lost or duplicated;
  - no disk is ever put on a smaller one;
  - a chain of k disks makes 2^k - 1 calls to the move gate;
  - on the program's own start state every one of those moves succeeds,
    and the whole tower ends up on C.

  `NodeModel.SolveData` states that taking the data of the node lists
  gives back exactly the value model.

`Hanoi.Run` puts these together. After the setup, the first snapshot and
the solve, towers A and B are empty and C holds 1..N from the top. The
counter stands at 2^N, which is the first snapshot plus 2^N - 1
successful moves.

Output is modelled as text. `PrintStack` and `PrintStacks` return the
exact string the program writes; `Snapshot` and `Render` give its layout.

The move gate and the solver are modelled on every input, not only on
legal states. An illegal move is a no-op, exactly as in the code.
`MoveDiskToDestination` returns whether the disk moved. The solver's
node-level specification holds for any contents of the towers.

## Model

| member | source | states |
|---|---|---|
| `Nodes.Node.constructor` | SharedHeaders/Node.h:25 | the node stores the given data (0 by default); both links start out null |
| `Nodes.Node.GetData` | SharedHeaders/Node.h:37-40 | returns the data fixed at construction and reads no mutable state |
| `Nodes.Node.GetLeftNode` | SharedHeaders/Node.h:47-50 | returns the left link and reads nothing else |
| `Nodes.Node.GetRightNode` | SharedHeaders/Node.h:57-60 | returns the right link and reads nothing else |
| `Nodes.Node.SetLeftNode` | SharedHeaders/Node.h:66-69 | the left link becomes the argument; the data and the right link are untouched (frame) |
| `Nodes.Node.SetRightNode` | SharedHeaders/Node.h:75-78 | the right link becomes the argument; the data and the left link are untouched (frame) |
| `Nodes.AccessorLaws` | SharedHeaders/Node.h:37-78 | a getter returns what its setter stored last; setting the left link leaves the right link as it was, and setting the right link leaves the left link as it was |
| `DiskStacks.DiskStack.constructor` | Tower_Of_Hanoi/Sources/main.cpp:79-81 | a new tower is a well-formed empty stack |
| `DiskStacks.DiskStack.GetTopDisk` | Tower_Of_Hanoi/Sources/main.cpp:173-174 | null exactly when the tower is empty, otherwise the first node of the list |
| `DiskStacks.DiskStack.PushToStack` | Tower_Of_Hanoi/Sources/DiskStack.cpp:32-39 | a non-null node goes on top with the old list unchanged beneath it; null changes nothing; the stack stays linked and acyclic |
| `DiskStacks.DiskStack.PopFromStack` | Tower_Of_Hanoi/Sources/DiskStack.cpp:42-53 | on a non-empty stack returns the old top, leaves the rest of the list, and clears the popped node's right link; on an empty stack returns null and changes nothing |
| `DiskStacks.DiskStack.Drain` | Tower_Of_Hanoi/Sources/DiskStack.cpp:20-29 | the destructor's loop terminates with the stack empty and every node it held unlinked |
| `DiskStacks.DiskStack.PrintStack` | Tower_Of_Hanoi/Sources/DiskStack.cpp:56-73 | the traversal writes `Render` of the tower's disks: "Disk n" per node from the top, separated by ", ", then a newline |
| `DiskStacks.PushThenPop` | Tower_Of_Hanoi/Sources/DiskStack.cpp:32-53 | popping right after pushing a node returns that node, unlinked, and leaves the stack's contents and top as they were |
| `DiskStacks.EntriesSnoc` | Tower_Of_Hanoi/Sources/DiskStack.cpp:60-70 | adding a disk at the bottom appends one entry, after a separator exactly when there was an entry before |
| `DiskStacks.EntriesPrefix` | Tower_Of_Hanoi/Sources/DiskStack.cpp:60-70 | one pass of the print loop extends the text of the first i entries to the first i + 1 entries |
| `DiskStacks.DecimalString` | Tower_Of_Hanoi/Sources/DiskStack.cpp:62 | the rendering of a disk size is non-empty and starts with '-' exactly when the size is negative |
| `DiskStacks.NatString` | Tower_Of_Hanoi/Sources/DiskStack.cpp:62 | the rendering of a natural number is a non-empty string of decimal digits |
| `DiskStacks.Digit` | Tower_Of_Hanoi/Sources/DiskStack.cpp:62 | the character written for a digit d is the one whose code is d above '0' |
| `DiskStacks.NatStringValue` | Tower_Of_Hanoi/Sources/DiskStack.cpp:62 | the digits written for n denote n |
| `DiskStacks.DecimalStringValue` | Tower_Of_Hanoi/Sources/DiskStack.cpp:62 | the text written for any integer n, sign included, denotes n |
| `HanoiModel.Transfer` | Tower_Of_Hanoi/Sources/main.cpp:176-193 | a disk moves iff the source is non-empty and the destination is empty or has a larger top; a move takes the source's top onto the destination; otherwise both pegs are unchanged |
| `HanoiModel.TransferConserves` | Tower_Of_Hanoi/Sources/main.cpp:193 | a move loses and creates no disk (multisets), and shifts exactly one disk |
| `HanoiModel.TransferKeepsOrder` | Tower_Of_Hanoi/Sources/main.cpp:180-188 | if both pegs are ordered smallest on top, they still are after the attempt |
| `HanoiModel.Solve` | Tower_Of_Hanoi/Sources/main.cpp:146-159 | the number of successful moves never exceeds the number of calls to the gate |
| `HanoiModel.SolveCalls` | Tower_Of_Hanoi/Sources/main.cpp:146-159 | a chain of k disks makes exactly 2^k - 1 calls to MoveDiskToDestination, whatever the pegs hold |
| `HanoiModel.SolveConserves` | Tower_Of_Hanoi/Sources/main.cpp:146-159 | the three pegs together hold the same multiset of disks after the recursion as before |
| `HanoiModel.SolveKeepsOrder` | Tower_Of_Hanoi/Sources/main.cpp:146-159 | pegs ordered before the recursion are ordered after it |
| `HanoiModel.SolveMovesTower` | Tower_Of_Hanoi/Sources/main.cpp:146-159 | disks 1..k on top of a source whose remaining disks, like the other pegs, are all larger than k end up on top of the destination; the rest is untouched; all 2^k - 1 moves succeed |
| `HanoiModel.OneDiskTower` | Tower_Of_Hanoi/Sources/main.cpp:148-151 | a single disk moves onto a peg clear above it in one successful call |
| `HanoiModel.TowerStep` | Tower_Of_Hanoi/Sources/main.cpp:152-159 | k - 1 disks off, disk k across, k - 1 disks back on top moves the k-tower, with 2 (2^(k-1) - 1) + 1 successful moves |
| `HanoiModel.RangeGrows` | Tower_Of_Hanoi/Sources/main.cpp:95-97 | putting disks 1..k-1 on top of disk k gives the disks 1..k |
| `HanoiModel.SolvePuzzle` | Tower_Of_Hanoi/Sources/main.cpp:129 | the program's first call (1..N on A, B and C empty) leaves A and B empty and 1..N on C, after 2^N - 1 calls that all succeed |
| `NodeModel.DataOfCons` | Tower_Of_Hanoi/Sources/DiskStack.cpp:36-37 | putting a node on top of a list puts its data on top of the list's disks |
| `NodeModel.TransferData` | Tower_Of_Hanoi/Sources/main.cpp:176-193 | moving nodes, compared by their data, is `Transfer` on their disks, with the same outcome |
| `NodeModel.SolveData` | Tower_Of_Hanoi/Sources/main.cpp:146-159 | the recursion on node lists is `Solve` on their disks: the same resulting pegs, calls and successful moves |
| `NodeModel.DataOfCounts` | Tower_Of_Hanoi/Sources/main.cpp:95-124 | a tower whose nodes hold 1, 2, ... from the top holds the disks 1..k |
| `Hanoi.LeftLinksChain` | Tower_Of_Hanoi/Sources/main.cpp:110-119 | the left links set by the setup loop, one per pushed disk, form a null-terminated left chain from the first disk |
| `Hanoi.Towers.constructor` | Tower_Of_Hanoi/Sources/main.cpp:52-59 | three distinct empty towers and the counter at 0 |
| `Hanoi.Towers.PrintStacks` | Tower_Of_Hanoi/Sources/main.cpp:205-228 | writes the snapshot labelled with the old counter, with the three towers rendered top first; increments the counter; changes nothing else |
| `Hanoi.Towers.MoveDiskToDestination` | Tower_Of_Hanoi/Sources/main.cpp:163-202 | the two towers' node lists become what `TransferNodes` says, so their disks become `Transfer`'s; the result is whether a disk moved; the counter grows by one exactly when it did; the towers stay disjoint and well-formed |
| `Hanoi.Towers.MoveTopNode` | Tower_Of_Hanoi/Sources/main.cpp:193 | `PushToStack(PopFromStack())` on a non-empty source moves its top node onto the destination, keeping the towers disjoint and well-formed |
| `Hanoi.Towers.TowerOfHanoi` | Tower_Of_Hanoi/Sources/main.cpp:135-160 | for a node with a left chain of k nodes, the towers end up holding what `SolveNodes` computes for k; the counter grows by its successful moves; a null node changes nothing; the chain survives |
| `Hanoi.Towers.PushDisks` | Tower_Of_Hanoi/Sources/main.cpp:95-125 | tower A holds 1..nbDisks from the top (nothing when nbDisks <= 0); B and C stay empty; the first node's left chain visits the nodes of A from the bottom up, holding nbDisks, ..., 1, so each disk's left link is the disk just above it on A |
| `Hanoi.Towers.AddDisk` | Tower_Of_Hanoi/Sources/main.cpp:97-124 | one pass of the setup loop: a new node for the disk becomes the old top's left link and the new top of A |
| `Hanoi.Run` | Tower_Of_Hanoi/Sources/main.cpp:89-129 | after setup, the first snapshot and the solve from A to C, A and B are empty, C holds 1..N, and the counter is 2^N |

## Left out

- The console input of `main` (main.cpp 67-71) is the parameter of `Hanoi.Run`. The banner lines and the "Invalid input" message are not produced.
- Output is not written anywhere. `PrintStack` and `PrintStacks` return the text instead; `MoveDiskToDestination` and `TowerOfHanoi` drop each snapshot's text.
- The allocation-failure branches and the exit code -1 (main.cpp 83-87, 99-103) are not modelled: allocation cannot fail in the model.
- The null checks on the `shared_ptr` tower handles (main.cpp 137-140, 165-168) are not modelled: towers are non-null references. The null-node case of `TowerOfHanoi` is modelled.
- Memory management is not modelled. `Drain` models the destructor's pop loop but not `delete`, and the program's end, when the global towers are destroyed, is not modelled.
- `DiskStack.h` is not part of this model. `GetTopDisk` and the stack's constructor follow their uses in `main.cpp`.
- `Hanoi.Towers.PrintStacks`: the counter and the disk sizes are unbounded integers. The 32-bit overflow of `nbIterations++`, reached only after 2^31 snapshots, is not modelled.
- Recursion depth (stack exhaustion for very large disk counts) is not modelled.
- `DiskStacks.DiskStack.PushToStack` requires that the pushed node is not already on the stack. The code does not check this, and pushing such a node would make the list cyclic; every caller in the program pushes a node that is on no stack.
- `Hanoi.Towers.MoveDiskToDestination` requires its two towers to be distinct towers of the program, and takes the third one as a ghost parameter. Calls that alias two towers do not occur in the program and are not modelled.
- `Hanoi.Towers.TowerOfHanoi` requires three distinct towers and a finite, null-terminated left chain. A cyclic chain, which the program never builds, would not terminate in the code.
- `Hanoi.Towers.TowerOfHanoi` ties the resulting towers and the counter to `SolveNodes` but keeps no ghost count of its calls to the move gate, so the count of 2^k - 1 calls (`SolveCalls`) is proved on the value model only.
- `Hanoi.Towers.PrintStacks` renders the three towers before it increments the counter, while the code increments first when writing the label. Rendering a tower does not read the counter, so the text and the new state are the same.
- For a non-positive disk count the setup pushes nothing, the first snapshot is still taken (the counter becomes 1), and the solver receives a null node and moves nothing. `Hanoi.Run` states this: 2^0 = 1.
- An illegal move inside the recursion is skipped; both recursive calls are still made. `Solve` and `TowerOfHanoi` state this.
