/** The game rules: three towers, the legality check, the move, the set-up
    and the win check that the interactive loop consults.

    The C functions take `Stack *` pointers that always point at one of
    `main`'s three locals A, B and C; here a pointer is a `TowerId` and the
    three locals are one immutable `State` value. Two equal identifiers are
    two equal pointers, so a move from a tower to itself sees the same stack
    on both sides, as the C code does.
 */
module Game {
  import opened Tower

  /** Which of the three towers a pointer designates. */
  datatype TowerId = A | B | C

  /** The three towers of a game. */
  datatype State = State(a: Stack, b: Stack, c: Stack)
  {
    /** The stack the identifier points at. */
    function Get(t: TowerId): Stack
    {
      match t
      case A => a
      case B => b
      case C => c
    }

    /** The state after writing `s` through the pointer `t`. */
    function Set(t: TowerId, s: Stack): (r: State)
      ensures r.Get(t) == s
      ensures forall u :: u != t ==> r.Get(u) == Get(u)
    {
      match t
      case A => this.(a := s)
      case B => this.(b := s)
      case C => this.(c := s)
    }
  }

  /** How many disks the three towers hold together. */
  function TotalDisks(g: State): nat
  {
    |g.a| + |g.b| + |g.c|
  }

  /** The disks of all three towers, regardless of where they sit. */
  ghost function Contents(g: State): multiset<int>
  {
    multiset(g.a) + multiset(g.b) + multiset(g.c)
  }

  /** The top disk of `from` may go onto `to`: `from` has a disk, and `to` is
      empty or has a strictly larger top disk. */
  function IsValidMove(from: Stack, to: Stack): (ok: bool)
    ensures ok ==> !IsEmpty(from)
    ensures !IsEmpty(from) && IsEmpty(to) ==> ok
    ensures !IsEmpty(from) && !IsEmpty(to) ==> (ok <==> Peek(from) < Peek(to))
  {
    if IsEmpty(from) then false
    else if IsEmpty(to) then true
    else Peek(from) < Peek(to)
  }

  /** Whatever the stacks, a tower can never be moved onto itself. */
  lemma SelfMoveInvalid(s: Stack)
    ensures !IsValidMove(s, s)
  {
  }

  /** Between two towers at most one direction is legal; when both towers
      have disks with different tops, or exactly one has disks, exactly one
      direction is. */
  lemma OneDirection(x: Stack, y: Stack)
    ensures !(IsValidMove(x, y) && IsValidMove(y, x))
    ensures IsEmpty(x) != IsEmpty(y) ==> IsValidMove(x, y) != IsValidMove(y, x)
    ensures !IsEmpty(x) && !IsEmpty(y) && Peek(x) != Peek(y) ==>
              IsValidMove(x, y) != IsValidMove(y, x)
  {
  }

  /** For well-stacked towers the legality check is exactly "the source has a
      disk and putting it on the destination keeps the destination well
      stacked". */
  lemma ValidMoveKeepsOrder(from: Stack, to: Stack)
    requires WellStacked(from) && WellStacked(to)
    ensures IsValidMove(from, to) <==> !IsEmpty(from) && WellStacked(Push(to, Peek(from)))
  {
    if !IsEmpty(from) {
      var d, r := Peek(from), Push(to, Peek(from));
      if IsValidMove(from, to) {
        forall i, j | 0 <= i < j < |r| ensures r[i] < r[j] {
          if i == 0 && j > 1 {
            assert r[j] == to[j - 1] && to[0] <= to[j - 1];
          }
        }
      } else {
        assert r[0] == d && r[1] == to[0];
      }
    }
  }

  /** What `moveDisk` reports, and the towers it leaves. */
  datatype MoveResult = MoveResult(moved: bool, state: State)

  /** Checks the move and, when it is legal, pops the top disk of `from` and
      pushes it onto `to`; an illegal move reports failure and changes
      nothing. */
  function MoveDisk(g: State, from: TowerId, to: TowerId): (r: MoveResult)
    ensures r.moved <==> IsValidMove(g.Get(from), g.Get(to))
    ensures !r.moved ==> r.state == g
    ensures r.moved ==> from != to
    ensures r.moved ==> Push(r.state.Get(from), Peek(g.Get(from))) == g.Get(from)
    ensures r.moved ==> r.state.Get(to) == Push(g.Get(to), Peek(g.Get(from)))
    ensures forall t :: t != from && t != to ==> r.state.Get(t) == g.Get(t)
    ensures TotalDisks(r.state) == TotalDisks(g)
    ensures Contents(r.state) == Contents(g)
  {
    if !IsValidMove(g.Get(from), g.Get(to)) then MoveResult(false, g)
    else
      var p := Pop(g.Get(from));
      var g' := g.Set(from, p.rest);
      MoveResult(true, g'.Set(to, Push(g'.Get(to), p.disk)))
  }

  /** Walks the nodes of `x` counting them and compares the count with `n`. */
  method AreAllDisksInOneTower(x: Stack, n: int) returns (all: bool)
    ensures all <==> |x| == n
  {
    var count := 0;
    var current := x;
    while !IsEmpty(current)
      invariant count + |current| == |x|
      decreases |current|
    {
      count := count + 1;
      current := Pop(current).rest;
    }
    all := count == n;
  }

  /** The condition on which the interactive loop ends with a win: the count
      is taken on tower C alone, so a negative n can never be reached. */
  function GameWon(g: State, n: int): (won: bool)
    ensures won ==> 0 <= n
    ensures won ==> TotalDisks(g) >= n
  {
    |g.c| == n
  }

  /** The disks 1, 2, ..., n in that order; none when n is below 1. */
  function Disks(n: int): (s: Stack)
    ensures |s| == if n < 0 then 0 else n
    ensures forall i :: 0 <= i < |s| ==> s[i] == i + 1
  {
    Interval(1, n)
  }

  /** The consecutive sizes lo, lo + 1, ..., hi; none when lo > hi. */
  function Interval(lo: int, hi: int): (s: Stack)
    ensures |s| == if lo > hi then 0 else hi - lo + 1
    ensures forall i :: 0 <= i < |s| ==> s[i] == lo + i
    decreases hi - lo
  {
    if lo > hi then [] else [lo] + Interval(lo + 1, hi)
  }

  /** The disks are all real sizes, smallest first, and each size appears
      once. */
  lemma DisksWellStacked(n: int)
    ensures WellStacked(Disks(n))
    ensures forall d :: d in multiset(Disks(n)) <==> 1 <= d <= n
  {
    var s := Disks(n);
    forall d ensures d in multiset(s) <==> 1 <= d <= n {
      if 1 <= d <= n {
        assert s[d - 1] == d;
      }
    }
  }

  /** The state `initializeGame(n)` leaves: disks 1..n on A, B and C empty. */
  function Start(n: int): State
  {
    State(Disks(n), [], [])
  }

  /** Empties the three towers and pushes n, n - 1, ..., 1 onto A, so that
      disk 1 ends on top. */
  method InitializeGame(n: int) returns (g: State)
    ensures g.a == Disks(n) && IsEmpty(g.b) && IsEmpty(g.c)
    ensures g == Start(n)
  {
    var a, b, c := InitStack(), InitStack(), InitStack();
    var i := n;
    while i >= 1
      invariant i <= n
      invariant i >= 0 || i == n
      invariant a == Interval(i + 1, n)
    {
      a := Push(a, i);
      i := i - 1;
    }
    g := State(a, b, c);
  }
}
