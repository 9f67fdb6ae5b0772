/** One tower of the puzzle: the linked-list stack of disk sizes.

    The C stack is a chain of heap nodes reached from `top` through `next`
    pointers. Here a stack is the sequence of the disk sizes held by those
    nodes, in the order the chain visits them: index 0 is the top disk and
    the last index is the bottom disk. Node allocation and `free` have no
    counterpart; every operation is a pure function from the old stack to
    the new one.
 */
module Tower {

  /** The value `pop` and `peek` hand back when the stack has no node. */
  const Sentinel: int := -1

  /** A tower, top disk first. */
  type Stack = seq<int>

  /** What `pop` yields: the disk it returned and the stack it left behind. */
  datatype Popped = Popped(disk: int, rest: Stack)

  /** A fresh stack has no top node. */
  function InitStack(): (s: Stack)
    ensures IsEmpty(s)
  {
    []
  }

  /** True iff the stack has no top node. */
  function IsEmpty(s: Stack): (empty: bool)
    ensures empty <==> s == []
  {
    |s| == 0
  }

  /** Places `disk` on a new node in front of the old top. No ordering check:
      legality is the caller's business. */
  function Push(s: Stack, disk: int): (r: Stack)
    ensures !IsEmpty(r) && |r| == |s| + 1
    ensures r[0] == disk
    ensures r[1..] == s
  {
    [disk] + s
  }

  /** Unlinks the top node and returns its disk; on an empty stack returns the
      sentinel and leaves the stack as it was. */
  function Pop(s: Stack): (r: Popped)
    ensures IsEmpty(s) ==> r.disk == Sentinel && r.rest == s
    ensures !IsEmpty(s) ==> Push(r.rest, r.disk) == s
  {
    if IsEmpty(s) then Popped(Sentinel, s) else Popped(s[0], s[1..])
  }

  /** Returns the disk `Pop` would return, without unlinking anything. */
  function Peek(s: Stack): (d: int)
    ensures d == Pop(s).disk
    ensures IsEmpty(s) ==> d == Sentinel
  {
    if IsEmpty(s) then Sentinel else s[0]
  }

  /** Popping right after a push gives back the pushed disk and the stack the
      push started from. */
  lemma PopAfterPush(s: Stack, disk: int)
    ensures Pop(Push(s, disk)) == Popped(disk, s)
  {
    assert Push(s, disk)[1..] == s;
  }

  /** Pushing back what `Pop` took off a non-empty stack restores it, and the
      stack shrank by exactly one node. */
  lemma PushAfterPop(s: Stack)
    requires !IsEmpty(s)
    ensures Push(Pop(s).rest, Pop(s).disk) == s
    ensures |Pop(s).rest| == |s| - 1
  {
  }

  /** The tower invariant: every disk has a real size (at least 1), and each
      disk is strictly smaller than every disk beneath it. */
  ghost predicate WellStacked(s: Stack)
  {
    && (forall i :: 0 <= i < |s| ==> 1 <= s[i])
    && (forall i, j :: 0 <= i < j < |s| ==> s[i] < s[j])
  }

  /** On a well-stacked tower the sentinel can never be mistaken for a disk:
      `Peek` returns it exactly when the tower is empty. */
  lemma SentinelMeansEmpty(s: Stack)
    requires WellStacked(s)
    ensures Peek(s) == Sentinel <==> IsEmpty(s)
    ensures !IsEmpty(s) ==> Peek(s) >= 1
  {
  }

  /** Taking the top disk off a well-stacked tower leaves it well stacked. */
  lemma PopKeepsWellStacked(s: Stack)
    requires WellStacked(s)
    ensures WellStacked(Pop(s).rest)
  {
  }

  /** The top disk of a well-stacked tower is the smallest disk it holds. */
  lemma TopIsSmallest(s: Stack, x: int)
    requires WellStacked(s) && x in multiset(s)
    ensures !IsEmpty(s) && Peek(s) <= x
  {
    assert x in s;
    var i :| 0 <= i < |s| && s[i] == x;
  }

  /** The disks of a well-stacked tower, read top to bottom, are exactly the
      ones of any other well-stacked tower holding the same disks: the order
      is forced by the contents. */
  lemma {:induction false} WellStackedUnique(s: Stack, t: Stack)
    requires WellStacked(s) && WellStacked(t)
    requires multiset(s) == multiset(t)
    ensures s == t
  {
    if s == [] {
      assert |t| == |multiset(t)| == 0;
    } else {
      TopIsSmallest(t, s[0]);
      TopIsSmallest(s, t[0]);
      var s', t' := Pop(s).rest, Pop(t).rest;
      PopKeepsWellStacked(s);
      PopKeepsWellStacked(t);
      assert s == [s[0]] + s' && t == [t[0]] + t';
      assert multiset(s') == multiset(t') by {
        assert multiset(s) == multiset{s[0]} + multiset(s');
        assert multiset(t) == multiset{t[0]} + multiset(t');
        assert s[0] == t[0];
        assert multiset(s') == multiset(s) - multiset{s[0]};
      }
      WellStackedUnique(s', t');
    }
  }
}
