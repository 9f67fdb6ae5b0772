# Tower of Hanoi game core, modelled in Dafny

This project models the core of a command-line Tower of Hanoi game written in C
(`hanoi_towers_game.c`). The core has two layers:

- **Tower** (`tower.dfy`): the linked-list stack behind each tower, with
  `initStack`, `isEmpty`, `push`, `pop` and `peek`. A stack is the `seq<int>`
  of the disk sizes its nodes hold. Index 0 is the top node. `pop` and `peek`
  keep the C code's `-1` sentinel on an empty stack.
- **Game** (`game.dfy`): three towers A, B and C in one immutable `State`.
  It holds the legality check `isValidMove`, the move `moveDisk`, the disk
  count `areAllDisksInOneTower`, and the set-up `initializeGame`.
  The C functions take `Stack *` pointers into `main`'s three locals. Here each
  pointer is a `TowerId`. A move from a tower to itself therefore sees the same
  stack on both sides, as it does in C.
- **Play** (`play.dfy`): whole games. `Run` applies a sequence of move requests
  to a state. A rejected request leaves the state alone, as the interactive
  loop does. The game invariant `Consistent` says two things: every tower
  strictly increases from top to bottom, and the three towers together hold
  the disks 1..n exactly once. The lemmas prove that this invariant holds
  from `initializeGame(n)` through any sequence of requested moves.

`areAllDisksInOneTower` and `initializeGame` are methods whose loops mirror
the C loops. The first walks the node chain and counts. The second pushes n
down to 1. Everything else is a pure function.

Three choices follow the C code closely:

- `pop` and `peek` return the sentinel `-1` on an empty stack
  (hanoi_towers_game.c lines 160 and 182). `SentinelMeansEmpty` shows that,
  on a well-stacked tower, this `-1` can never be confused with a disk.
- `moveDisk` reports only a `bool`. Any illegal request returns `false`
  whatever its reason, including a move from a tower onto itself.
  `SelfMoveInvalid` shows that the legality check alone rejects a self-move.
- The comments at lines 252 and 263 speak of any tower holding n disks, but
  `main` tests tower C only (lines 70 and 120). `GameWon` counts tower C alone.
  `TwoDisksOnSpareTower` shows that gathering every disk on B does not end the
  game. `FullTowerIsSolved` states the "any tower" reading as a property of a
  state: a tower holding n disks holds exactly 1..n, and the other two towers
  are empty.

## Model

| member | source | states |
|---|---|---|
| Tower.InitStack | hanoi_towers_game.c:134-137 | a fresh stack is empty |
| Tower.IsEmpty | hanoi_towers_game.c:139-142 | true exactly when the stack holds no disk |
| Tower.Push | hanoi_towers_game.c:144-154 | the new disk is the top, one node more, and the old stack lies unchanged beneath it |
| Tower.Pop | hanoi_towers_game.c:156-167 | on an empty stack returns -1 and leaves it unchanged; otherwise pushing the returned disk back onto the remaining stack gives the original, so pop undoes push |
| Tower.Peek | hanoi_towers_game.c:169-185 | returns the same disk pop would return (-1 when empty) without changing the stack |
| Tower.PopAfterPush | hanoi_towers_game.c:144-167 | popping right after pushing d returns d and restores the stack |
| Tower.PushAfterPop | hanoi_towers_game.c:144-167 | pushing back what pop took off a non-empty stack restores it; pop removes exactly one node |
| Tower.SentinelMeansEmpty | hanoi_towers_game.c:156-185 | on a well-stacked tower, peek returns -1 iff the tower is empty, and otherwise returns a disk of size at least 1 |
| Tower.PopKeepsWellStacked | hanoi_towers_game.c:156-167 | removing the top disk keeps the top-to-bottom strictly increasing order |
| Game.IsValidMove | hanoi_towers_game.c:218-236 | false from an empty tower; true onto an empty tower; otherwise true iff the moving top disk is strictly smaller than the destination's top |
| Game.SelfMoveInvalid | hanoi_towers_game.c:219-236 | a move from a tower to itself is never valid: the tower is empty, or its top is not strictly smaller than itself |
| Game.OneDirection | hanoi_towers_game.c:219-236 | between two towers at most one direction is valid, and exactly one when only one tower has disks or both tops differ |
| Game.ValidMoveKeepsOrder | hanoi_towers_game.c:218-236 | for well-stacked towers, the check accepts exactly the moves whose source has a disk and whose destination stays well stacked once it is pushed |
| Game.MoveDisk | hanoi_towers_game.c:239-249 | an invalid move returns false and changes nothing; a valid one returns true, the source loses its top disk, the destination gains that disk on top, the third tower is unchanged, and the disk count and the multiset of disks are unchanged |
| Game.AreAllDisksInOneTower | hanoi_towers_game.c:251-265 | walking the node chain returns true iff the tower holds exactly n disks |
| Game.Disks | hanoi_towers_game.c:274-279 | the disks of an n-disk game are 1..n in order, with none when n is below 1 |
| Game.DisksWellStacked | hanoi_towers_game.c:267-279 | the initial tower is well stacked and holds each size 1..n exactly once |
| Game.InitializeGame | hanoi_towers_game.c:267-279 | after pushing n down to 1, tower A is 1..n top to bottom and B and C are empty; for n below 1 all three are empty; the result is the `Start(n)` state the whole-game lemmas begin from |
| Game.GameWon | hanoi_towers_game.c:69-70 | main's loop condition: tower C holds exactly n disks; it can hold only when n is not negative and no more disks than the game has |
| Play.Run | hanoi_towers_game.c:111-117 | applies each move request through moveDisk, rejected ones changing nothing; no request sequence creates or loses a disk, and the disk count stays the same |
| Play.StartConsistent | hanoi_towers_game.c:267-279 | the initial state satisfies the game invariant |
| Play.MoveKeepsConsistent | hanoi_towers_game.c:239-249 | any move request, accepted or rejected, keeps every tower well stacked and the multiset of disks equal to 1..n |
| Play.RunKeepsConsistent | hanoi_towers_game.c:239-249 | any sequence of move requests keeps the game invariant |
| Play.ReachableConsistent | hanoi_towers_game.c:239-279 | every state reachable from initializeGame(n) has well-stacked towers holding 1..n exactly once, with n disks in all |
| Play.FullTowerIsSolved | hanoi_towers_game.c:251-265 | in a consistent state, a tower holding n disks holds exactly 1..n, and the other two towers are empty |
| Play.WonMeansAllOnC | hanoi_towers_game.c:69-70 | when main's win condition holds in a reachable state, C holds 1..n and A and B are empty |
| Play.ThreeDiskStart | hanoi_towers_game.c:267-279 | initializeGame(3) leaves A = [1, 2, 3] with B and C empty, and the game is not yet won |
| Play.OneDiskGame | hanoi_towers_game.c:239-265 | with one disk the game is not won at first; moving A to C is accepted and wins |
| Play.TwoDisksLargerOnSmaller | hanoi_towers_game.c:229-243 | with two disks, disk 1 moves from A to C, and disk 2 is then refused on disk 1 and nothing changes |
| Play.TwoDisksOnSpareTower | hanoi_towers_game.c:69-70 | with two disks, gathering both on B is legal but is not a win, because only C is counted |

## Left out

- The interactive loop of `main`, `scanf`/`printf`, and the check on the
  command's length (lines 49-127). These are input and output glue. `Run`
  stands for the loop's effect on the towers.
- Run: keeps applying requests after tower C reaches n disks, while the loop
  at line 70 stops there. It therefore describes more request sequences than
  the program accepts. Every invariant proved over `Run` still holds for the
  ones the program accepts.
- The mapping from the letters A/B/C (either case) to towers (lines 93-105).
  It is input parsing. `TowerId` stands for its result. `main` rejects a
  self-move before `moveDisk` is called; the model does not rely on that guard.
- `printTower` and `printAllTowers` (lines 191-216). They only display output.
- The `malloc` failure branch of `push` (lines 146-150), node allocation and
  `free`. The stack is an immutable sequence, so `push` always succeeds.
- The diagnostic `printf` calls inside `pop`, `peek` and `moveDisk`
  (lines 159, 181 and 247).
- C's 32-bit `int`. Every value the core stores or counts lies between -1
  and max(n, 0), and n is itself an `int` read at line 57. No wrap-around can
  occur, so unbounded integers model it exactly. A negative n is accepted;
  the towers then start empty, and the loop at line 70 can never end in a win
  (`GameWon` holds only for n of at least 0).
