/**
 * The move gate and the recursion of Tower_Of_Hanoi/Sources/main.cpp on the
 * node lists of the pegs, top first: this is what the imperative model
 * (module Hanoi) is proved to compute.  A node's data never changes, so
 * these are plain values.  Taking the data of every list gives back exactly
 * Transfer and Solve of module HanoiModel, where the puzzle's properties are
 * proved.
 */
module NodeModel {
  import opened Nodes
  import opened DiskStacks
  import opened HanoiModel

  /** MoveDiskToDestination on node lists: the disks are compared by their data. */
  function TransferNodes(src: seq<Node>, dst: seq<Node>): Move<Node>
  {
    if src == [] then Move(false, src, dst)
    else if dst == [] then Move(true, src[1..], [src[0]] + dst)
    else if src[0].data < dst[0].data then Move(true, src[1..], [src[0]] + dst)
    else Move(false, src, dst)
  }

  /** TowerOfHanoi on node lists, for a left chain of k nodes. */
  function SolveNodes(k: nat, src: seq<Node>, dst: seq<Node>, hlp: seq<Node>): Outcome<Node>
  {
    if k == 0 then Outcome(src, dst, hlp, 0, 0)
    else if k == 1 then
      var m := TransferNodes(src, dst);
      Outcome(m.src, m.dst, hlp, 1, if m.moved then 1 else 0)
    else
      var r1 := SolveNodes(k - 1, src, hlp, dst);
      var m := TransferNodes(r1.src, r1.hlp);
      var r2 := SolveNodes(k - 1, r1.dst, m.dst, m.src);
      Outcome(r2.hlp, r2.dst, r2.src, r1.calls + 1 + r2.calls,
              r1.moved + (if m.moved then 1 else 0) + r2.moved)
  }

  /** Putting a node on top puts its data on top. */
  lemma DataOfCons(n: Node, ns: seq<Node>)
    ensures DataOf([n] + ns) == [n.data] + DataOf(ns)
  {
    assert ([n] + ns)[1..] == ns;
  }

  /** A move of nodes is the move of their disks, with the same outcome. */
  lemma TransferData(src: seq<Node>, dst: seq<Node>)
    ensures var m := TransferNodes(src, dst);
      Transfer(DataOf(src), DataOf(dst)) == Move(m.moved, DataOf(m.src), DataOf(m.dst))
  {
    if src != [] {
      DataOfCons(src[0], dst);
    }
  }

  /**
   * The recursion on nodes is the recursion on disks: the pegs it leaves
   * hold exactly the disks Solve computes, after the same number of calls
   * and successful moves.
   */
  lemma {:induction false} SolveData(k: nat, src: seq<Node>, dst: seq<Node>, hlp: seq<Node>)
    ensures var r := SolveNodes(k, src, dst, hlp);
      Solve(k, DataOf(src), DataOf(dst), DataOf(hlp))
        == Outcome(DataOf(r.src), DataOf(r.dst), DataOf(r.hlp), r.calls, r.moved)
  {
    if k == 1 {
      TransferData(src, dst);
    } else if k > 1 {
      var r1 := SolveNodes(k - 1, src, hlp, dst);
      var m := TransferNodes(r1.src, r1.hlp);
      SolveData(k - 1, src, hlp, dst);
      TransferData(r1.src, r1.hlp);
      SolveData(k - 1, r1.dst, m.dst, m.src);
    }
  }

  /** Nodes holding 1, 2, ..., k from the top hold the disks Range(k). */
  lemma DataOfCounts(ns: seq<Node>)
    requires forall i :: 0 <= i < |ns| ==> ns[i].data == i + 1
    ensures DataOf(ns) == Range(|ns|)
  {
    forall i | 0 <= i < |ns|
      ensures DataOf(ns)[i] == Range(|ns|)[i]
    {
      DataOfAt(ns, i);
    }
  }
}
