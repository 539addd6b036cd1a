/**
 * The Tower of Hanoi logic of Tower_Of_Hanoi/Sources/main.cpp on values: a
 * peg is the sequence of its disks from top to bottom.  `Transfer` is the
 * move gate MoveDiskToDestination and `Solve` the recursion TowerOfHanoi,
 * over the number k of disks in the left-linked chain it is handed.  The
 * imperative model (module Hanoi) is proved to compute exactly these values;
 * the lemmas here say what they amount to.
 */
module HanoiModel {

  /** Top to bottom, each disk smaller than every disk beneath it. */
  ghost predicate StrictlyIncreasing(s: seq<int>)
  {
    forall i, j :: 0 <= i < j < |s| ==> s[i] < s[j]
  }

  /** The disks 1..k, top to bottom. */
  function Range(k: nat): (r: seq<int>)
    ensures |r| == k
    ensures forall i :: 0 <= i < k ==> r[i] == i + 1
  {
    if k == 0 then [] else Range(k - 1) + [k]
  }

  function Pow2(k: nat): (p: nat)
    ensures p >= 1
  {
    if k == 0 then 1 else 2 * Pow2(k - 1)
  }

  /** A peg is clear above k when it is empty or its top disk is larger than k. */
  ghost predicate ClearAbove(s: seq<int>, k: int)
  {
    s == [] || s[0] > k
  }

  // ------------------------------------------------------------------
  // The move gate

  /** The outcome of one attempted move: did it happen, and the two pegs after. */
  datatype Move<T> = Move(moved: bool, src: seq<T>, dst: seq<T>)

  /**
   * MoveDiskToDestination on values: a disk moves iff the source is
   * non-empty and the destination is empty or has a larger top disk; then
   * the source's top becomes the destination's top.  Otherwise nothing
   * changes.
   */
  function Transfer(src: seq<int>, dst: seq<int>): (m: Move<int>)
    ensures m.moved <==> src != [] && (dst == [] || src[0] < dst[0])
    ensures m.moved ==> m.src == src[1..] && m.dst == [src[0]] + dst
    ensures !m.moved ==> m.src == src && m.dst == dst
  {
    if src == [] then Move(false, src, dst)
    else if dst == [] then Move(true, src[1..], [src[0]] + dst)
    else if src[0] < dst[0] then Move(true, src[1..], [src[0]] + dst)
    else Move(false, src, dst)
  }

  /** A move takes exactly one disk off the source, and loses and creates none. */
  lemma TransferConserves(src: seq<int>, dst: seq<int>)
    ensures var m := Transfer(src, dst);
      && multiset(m.src) + multiset(m.dst) == multiset(src) + multiset(dst)
      && (m.moved ==> |m.src| == |src| - 1 && |m.dst| == |dst| + 1)
  {
    var m := Transfer(src, dst);
    if m.moved {
      assert src == [src[0]] + src[1..];
    }
  }

  /** A move never puts a disk on a smaller one, so it keeps both pegs ordered. */
  lemma TransferKeepsOrder(src: seq<int>, dst: seq<int>)
    requires StrictlyIncreasing(src) && StrictlyIncreasing(dst)
    ensures StrictlyIncreasing(Transfer(src, dst).src)
    ensures StrictlyIncreasing(Transfer(src, dst).dst)
  {
    var m := Transfer(src, dst);
    if m.moved {
      forall i, j | 0 <= i < j < |m.dst| ensures m.dst[i] < m.dst[j] {
        if i == 0 && dst != [] {
          assert dst[0] <= dst[j - 1];
        }
      }
    }
  }

  // ------------------------------------------------------------------
  // The recursion

  /**
   * The three pegs in the roles of one TowerOfHanoi call after it returns,
   * the calls it made to MoveDiskToDestination, and how many of them moved
   * a disk.
   */
  datatype Outcome<T> = Outcome(src: seq<T>, dst: seq<T>, hlp: seq<T>, calls: nat, moved: nat)

  /**
   * TowerOfHanoi on values, k being the length of the left chain of the
   * node it is given: no chain (a null node) does nothing, a single disk is
   * one move, and otherwise k - 1 disks go to the helper, one disk to the
   * destination, and k - 1 disks from the helper to the destination.
   */
  function Solve(k: nat, src: seq<int>, dst: seq<int>, hlp: seq<int>): (r: Outcome<int>)
    ensures r.moved <= r.calls
  {
    if k == 0 then Outcome(src, dst, hlp, 0, 0)
    else if k == 1 then
      var m := Transfer(src, dst);
      Outcome(m.src, m.dst, hlp, 1, if m.moved then 1 else 0)
    else
      // first: src -> hlp, using dst as the helper
      var r1 := Solve(k - 1, src, hlp, dst);
      // then one disk from src to dst
      var m := Transfer(r1.src, r1.hlp);
      // last: hlp -> dst, using src as the helper
      var r2 := Solve(k - 1, r1.dst, m.dst, m.src);
      Outcome(r2.hlp, r2.dst, r2.src, r1.calls + 1 + r2.calls,
              r1.moved + (if m.moved then 1 else 0) + r2.moved)
  }

  /** A call on a chain of k disks calls MoveDiskToDestination 2^k - 1 times, whatever the pegs hold. */
  lemma {:induction false} SolveCalls(k: nat, src: seq<int>, dst: seq<int>, hlp: seq<int>)
    ensures Solve(k, src, dst, hlp).calls == Pow2(k) - 1
  {
    if k > 1 {
      var r1 := Solve(k - 1, src, hlp, dst);
      var m := Transfer(r1.src, r1.hlp);
      SolveCalls(k - 1, src, hlp, dst);
      SolveCalls(k - 1, r1.dst, m.dst, m.src);
    }
  }

  /** No disk is created, lost or duplicated: the three pegs together hold the same disks. */
  lemma {:induction false} SolveConserves(k: nat, src: seq<int>, dst: seq<int>, hlp: seq<int>)
    ensures var r := Solve(k, src, dst, hlp);
      multiset(r.src) + multiset(r.dst) + multiset(r.hlp)
        == multiset(src) + multiset(dst) + multiset(hlp)
  {
    if k == 1 {
      TransferConserves(src, dst);
    } else if k > 1 {
      var r1 := Solve(k - 1, src, hlp, dst);
      var m := Transfer(r1.src, r1.hlp);
      var r2 := Solve(k - 1, r1.dst, m.dst, m.src);
      SolveConserves(k - 1, src, hlp, dst);
      TransferConserves(r1.src, r1.hlp);
      SolveConserves(k - 1, r1.dst, m.dst, m.src);
      calc {
        multiset(r2.hlp) + multiset(r2.dst) + multiset(r2.src);
        multiset(r1.dst) + multiset(m.dst) + multiset(m.src);
        multiset(r1.dst) + (multiset(r1.src) + multiset(r1.hlp));
        multiset(src) + multiset(hlp) + multiset(dst);
      }
    }
  }

  /**
   * Every step of the recursion is a move through the gate, which keeps the
   * pegs ordered, so pegs ordered before the call are ordered after every
   * move and at the end.
   */
  lemma {:induction false} SolveKeepsOrder(k: nat, src: seq<int>, dst: seq<int>, hlp: seq<int>)
    requires StrictlyIncreasing(src) && StrictlyIncreasing(dst) && StrictlyIncreasing(hlp)
    ensures var r := Solve(k, src, dst, hlp);
      StrictlyIncreasing(r.src) && StrictlyIncreasing(r.dst) && StrictlyIncreasing(r.hlp)
  {
    if k == 1 {
      TransferKeepsOrder(src, dst);
    } else if k > 1 {
      var r1 := Solve(k - 1, src, hlp, dst);
      var m := Transfer(r1.src, r1.hlp);
      SolveKeepsOrder(k - 1, src, hlp, dst);
      TransferKeepsOrder(r1.src, r1.hlp);
      SolveKeepsOrder(k - 1, r1.dst, m.dst, m.src);
    }
  }

  /** The conclusion of the tower property for k disks, as SolveMovesTower states it. */
  ghost predicate MovesTower(k: nat, rest: seq<int>, dst: seq<int>, hlp: seq<int>)
  {
    var r := Solve(k, Range(k) + rest, dst, hlp);
    && r.src == rest
    && r.dst == Range(k) + dst
    && r.hlp == hlp
    && r.moved == r.calls == Pow2(k) - 1
  }

  /**
   * The generalised tower property.  If the source holds the disks 1..k in
   * order on top of `rest`, and `rest` and the other two pegs are clear
   * above k, then the k disks end up on top of the destination, `rest` and
   * the helper are as before, and every one of the 2^k - 1 moves succeeds.
   */
  lemma {:induction false} SolveMovesTower(k: nat, rest: seq<int>, dst: seq<int>, hlp: seq<int>)
    requires ClearAbove(rest, k) && ClearAbove(dst, k) && ClearAbove(hlp, k)
    ensures MovesTower(k, rest, dst, hlp)
  {
    if k == 0 {
      assert Range(0) + rest == rest;
    } else if k == 1 {
      OneDiskTower(rest, dst, hlp);
    } else {
      // the k - 1 smaller disks go to the helper, uncovering disk k,
      // and later from the helper onto disk k
      SolveMovesTower(k - 1, [k] + rest, hlp, dst);
      SolveMovesTower(k - 1, hlp, [k] + dst, rest);
      TowerStep(k, rest, dst, hlp);
    }
  }

  /** A single disk on a peg clear above 1 moves in one step. */
  lemma OneDiskTower(rest: seq<int>, dst: seq<int>, hlp: seq<int>)
    requires ClearAbove(dst, 1)
    ensures MovesTower(1, rest, dst, hlp)
  {
    assert Range(1) + rest == [1] + rest;
  }

  /**
   * The step of the tower property: moving k - 1 disks off disk k, then
   * disk k, then the k - 1 disks back on top of it, moves the k disks.
   */
  lemma TowerStep(k: nat, rest: seq<int>, dst: seq<int>, hlp: seq<int>)
    requires k >= 2 && ClearAbove(dst, k)
    requires MovesTower(k - 1, [k] + rest, hlp, dst)
    requires MovesTower(k - 1, hlp, [k] + dst, rest)
    ensures MovesTower(k, rest, dst, hlp)
  {
    RangeGrows(k, rest);
    RangeGrows(k, dst);
    var r1 := Solve(k - 1, Range(k - 1) + ([k] + rest), hlp, dst);
    var m := Transfer(r1.src, r1.hlp);
    assert m.moved && m.src == rest && m.dst == [k] + dst;
  }

  /** Disk k below the disks 1..k-1 makes the disks 1..k. */
  lemma RangeGrows(k: nat, s: seq<int>)
    requires k >= 1
    ensures Range(k - 1) + ([k] + s) == Range(k) + s
  {
  }

  /** The solver's first call: N disks 1..N on the source, the other pegs empty. */
  lemma SolvePuzzle(n: nat)
    ensures var r := Solve(n, Range(n), [], []);
      && r.src == [] && r.hlp == [] && r.dst == Range(n)
      && r.moved == r.calls == Pow2(n) - 1
  {
    SolveMovesTower(n, [], [], []);
    assert Range(n) + [] == Range(n);
  }
}
