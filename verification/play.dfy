/** Whole games: the state reached from `initializeGame(n)` by any sequence
    of requested moves, legal or not, and the invariants every such state
    keeps.
 */
module Play {
  import opened Tower
  import opened Game

  /** One move request: take the top disk of `from` and put it on `to`. */
  datatype Move = Move(from: TowerId, to: TowerId)

  /** The state after asking `moveDisk` for each move in turn; a rejected
      move is skipped, as the interactive loop does. Whatever the requests,
      no disk is created or lost. */
  function Run(g: State, moves: seq<Move>): (r: State)
    ensures Contents(r) == Contents(g)
    ensures TotalDisks(r) == TotalDisks(g)
    decreases |moves|
  {
    if moves == [] then g
    else Run(MoveDisk(g, moves[0].from, moves[0].to).state, moves[1..])
  }

  /** The game invariant for a puzzle of n disks: every tower is well
      stacked, and together they hold each of the disks 1..n exactly once. */
  ghost predicate Consistent(g: State, n: int)
  {
    && (forall t :: WellStacked(g.Get(t)))
    && Contents(g) == multiset(Disks(n))
  }

  /** The set-up satisfies the game invariant. */
  lemma StartConsistent(n: int)
    ensures Consistent(Start(n), n)
  {
    DisksWellStacked(n);
    var g := Start(n);
    forall t ensures WellStacked(g.Get(t)) {
    }
  }

  /** Every requested move, accepted or rejected, keeps the game invariant. */
  lemma MoveKeepsConsistent(g: State, n: int, from: TowerId, to: TowerId)
    requires Consistent(g, n)
    ensures Consistent(MoveDisk(g, from, to).state, n)
  {
    var r := MoveDisk(g, from, to);
    if r.moved {
      var f, s := g.Get(from), g.Get(to);
      assert WellStacked(f) && WellStacked(s);
      PopKeepsWellStacked(f);
      ValidMoveKeepsOrder(f, s);
      assert r.state.Get(from) == Pop(f).rest;
      forall t ensures WellStacked(r.state.Get(t)) {
        if t != from && t != to {
          assert r.state.Get(t) == g.Get(t);
        }
      }
    }
  }

  /** Any sequence of requested moves keeps the game invariant. */
  lemma {:induction false} RunKeepsConsistent(g: State, n: int, moves: seq<Move>)
    requires Consistent(g, n)
    ensures Consistent(Run(g, moves), n)
    decreases |moves|
  {
    if moves != [] {
      MoveKeepsConsistent(g, n, moves[0].from, moves[0].to);
      RunKeepsConsistent(MoveDisk(g, moves[0].from, moves[0].to).state, n, moves[1..]);
    }
  }

  /** Every state a game can reach from `initializeGame(n)` has well-stacked
      towers holding each disk 1..n exactly once, and n disks in all when
      n is not negative. */
  lemma ReachableConsistent(n: int, moves: seq<Move>)
    ensures Consistent(Run(Start(n), moves), n)
    ensures TotalDisks(Run(Start(n), moves)) == if n < 0 then 0 else n
  {
    StartConsistent(n);
    RunKeepsConsistent(Start(n), n, moves);
  }

  /** When the three towers hold n disks in all and one of them holds n,
      the other two are empty and that one holds all the disks. */
  lemma OthersEmpty(g: State, n: int, t: TowerId)
    requires Contents(g) == multiset(Disks(n))
    requires |g.Get(t)| == n
    ensures forall u :: u != t ==> IsEmpty(g.Get(u))
    ensures Contents(g) == multiset(g.Get(t))
  {
    assert |g.a| + |g.b| + |g.c| == n by {
      assert |Contents(g)| == |g.a| + |g.b| + |g.c|;
      assert |multiset(Disks(n))| == |Disks(n)|;
    }
    match t
    case A => assert IsEmpty(g.b) && IsEmpty(g.c);
    case B => assert IsEmpty(g.a) && IsEmpty(g.c);
    case C => assert IsEmpty(g.a) && IsEmpty(g.b);
  }

  /** When any one tower of a consistent state holds n disks, it holds
      exactly 1..n top to bottom and the other two towers are empty. */
  lemma FullTowerIsSolved(g: State, n: int, t: TowerId)
    requires Consistent(g, n)
    requires |g.Get(t)| == n
    ensures g.Get(t) == Disks(n)
    ensures forall u :: u != t ==> IsEmpty(g.Get(u))
  {
    OthersEmpty(g, n, t);
    DisksWellStacked(n);
    WellStackedUnique(g.Get(t), Disks(n));
  }

  /** The interactive loop's win condition, reached from `initializeGame(n)`,
      means tower C holds 1..n and towers A and B are empty. */
  lemma WonMeansAllOnC(n: int, moves: seq<Move>)
    requires GameWon(Run(Start(n), moves), n)
    ensures Run(Start(n), moves) == State([], [], Disks(n))
  {
    var g := Run(Start(n), moves);
    ReachableConsistent(n, moves);
    FullTowerIsSolved(g, n, C);
    assert IsEmpty(g.Get(A)) && IsEmpty(g.Get(B));
  }

  /** Three disks start as 1, 2, 3 on A, and the game is not yet won. */
  lemma ThreeDiskStart()
    ensures Start(3) == State([1, 2, 3], [], [])
    ensures !GameWon(Start(3), 3)
  {
    assert Disks(3) == [1, 2, 3];
  }

  /** With one disk, moving it from A to C is accepted and wins the game. */
  lemma OneDiskGame()
    ensures !GameWon(Start(1), 1)
    ensures MoveDisk(Start(1), A, C) == MoveResult(true, State([], [], [1]))
    ensures GameWon(Run(Start(1), [Move(A, C)]), 1)
  {
    assert Disks(1) == [1];
  }

  /** With two disks, after disk 1 goes from A to C, disk 2 cannot follow it
      onto disk 1: the request is rejected and nothing changes. */
  lemma TwoDisksLargerOnSmaller()
    ensures MoveDisk(Start(2), A, C) == MoveResult(true, State([2], [], [1]))
    ensures MoveDisk(State([2], [], [1]), A, C) == MoveResult(false, State([2], [], [1]))
  {
    assert Disks(2) == [1, 2];
  }

  /** Running a request followed by more requests runs the first through
      `moveDisk`, then the rest from the state it leaves. */
  lemma RunFirst(g: State, m: Move, rest: seq<Move>)
    ensures Run(g, [m] + rest) == Run(MoveDisk(g, m.from, m.to).state, rest)
  {
    assert ([m] + rest)[0] == m && ([m] + rest)[1..] == rest;
  }

  /** With two disks, gathering both on B is legal but does not end the
      game, since only tower C is counted. */
  lemma TwoDisksOnSpareTower()
    ensures Run(Start(2), [Move(A, C), Move(A, C), Move(A, B), Move(C, B)]) == State([], [1, 2], [])
    ensures !GameWon(State([], [1, 2], []), 2)
  {
    var s1, s2, s3 := State([2], [], [1]), State([], [2], [1]), State([], [1, 2], []);
    TwoDisksLargerOnSmaller();
    assert MoveDisk(s1, A, B).state == s2;
    assert MoveDisk(s2, C, B).state == s3;
    RunFirst(Start(2), Move(A, C), [Move(A, C), Move(A, B), Move(C, B)]);
    RunFirst(s1, Move(A, C), [Move(A, B), Move(C, B)]);
    RunFirst(s1, Move(A, B), [Move(C, B)]);
    RunFirst(s2, Move(C, B), []);
    assert [Move(A, C)] + [Move(A, C), Move(A, B), Move(C, B)] == [Move(A, C), Move(A, C), Move(A, B), Move(C, B)];
    assert [Move(C, B)] + [] == [Move(C, B)];
  }
}
