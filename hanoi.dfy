/**
 * The program of Tower_Of_Hanoi/Sources/main.cpp.  Its globals (the three
 * towers spStackA, spStackB, spStackC and the counter nbIterations) are the
 * fields of one `Towers` object, and the free functions of the file are its
 * methods.  Every state change is tied to the value model of module
 * HanoiModel.
 */
module Hanoi {
  import opened Nodes
  import opened DiskStacks
  import opened HanoiModel
  import opened NodeModel

  /**
   * `chain` is the chain of nodes reached from `first` through left links:
   * empty for a null pointer, otherwise starting at `first`, each node's left
   * link the next one, and the last one's left link null.
   */
  ghost predicate LeftChain(first: Node?, chain: seq<Node>)
    reads chain`left
  {
    if chain == [] then first == null
    else first == chain[0] && LeftChain(chain[0].left, chain[1..])
  }

  /**
   * The links laid out by main's setup loop, stated link by link: each node
   * of `chain` but the last has the next one as its left link, and the last
   * one's left link is null.
   */
  ghost predicate LeftLinks(chain: seq<Node>)
    reads chain`left
  {
    && (chain != [] ==> chain[|chain| - 1].left == null)
    && (forall i :: 0 <= i < |chain| - 1 ==> chain[i].left == chain[i + 1])
  }

  /** Links laid out node by node make a left chain from the first node. */
  lemma {:induction false} LeftLinksChain(chain: seq<Node>)
    requires LeftLinks(chain)
    ensures LeftChain(if chain == [] then null else chain[0], chain)
  {
    if |chain| > 1 {
      assert chain[0].left == chain[1];
      LeftLinksChain(chain[1..]);
    }
  }

  class Towers {
    const stackA: DiskStack
    const stackB: DiskStack
    const stackC: DiskStack
    var nbIterations: int
    /** Every node on some tower. */
    ghost var pool: set<Node>

    /**
     * Three distinct well-formed towers whose nodes are disjoint and make up
     * `pool`: no node sits on two towers.
     */
    ghost predicate Valid()
      reads this`pool, stackA, stackB, stackC, pool`right
    {
      Partition(stackA, stackB, stackC)
    }

    /** The towers stay valid across a change that touches none of their state. */
    twostate lemma ValidStays()
      requires old(Valid())
      requires unchanged(this`pool, stackA, stackB, stackC) && unchanged(old(pool)`right)
      ensures Valid()
    {
    }

    /** `s`, `d` and `h` are distinct well-formed towers sharing no node, all of them from the pool. */
    ghost predicate Partition(s: DiskStack, d: DiskStack, h: DiskStack)
      reads this`pool, s, d, h, pool`right
    {
      && s != d && d != h && s != h
      && s.repr <= pool && d.repr <= pool && h.repr <= pool
      && s.Valid() && d.Valid() && h.Valid()
      && s.repr !! d.repr && d.repr !! h.repr && s.repr !! h.repr
    }

    /** Swapping the last two roles keeps a partition. */
    lemma PartitionSwapLast(s: DiskStack, d: DiskStack, h: DiskStack)
      requires Partition(s, d, h)
      ensures Partition(s, h, d)
    {
    }

    /** Swapping the first and last roles keeps a partition. */
    lemma PartitionSwapOuter(s: DiskStack, d: DiskStack, h: DiskStack)
      requires Partition(s, d, h)
      ensures Partition(h, d, s)
    {
    }

    /** Valid() does not depend on which tower plays which role. */
    lemma ValidInRoles(s: DiskStack, d: DiskStack, h: DiskStack)
      requires Roles(s, d, h)
      ensures Valid() <==> Partition(s, d, h)
    {
    }

    /** `s`, `d` and `h` are the three towers, each in one role. */
    ghost predicate Roles(s: DiskStack, d: DiskStack, h: DiskStack)
    {
      && stackA != stackB && stackB != stackC && stackA != stackC
      && IsTower(s) && IsTower(d) && IsTower(h) && s != d && d != h && s != h
    }

    ghost predicate IsTower(s: DiskStack)
    {
      s == stackA || s == stackB || s == stackC
    }

    /** The three empty towers and the counter at zero, as the program starts. */
    constructor ()
      ensures Valid() && fresh(stackA) && fresh(stackB) && fresh(stackC)
      ensures stackA.nodes == [] && stackB.nodes == [] && stackC.nodes == []
      ensures nbIterations == 0 && pool == {}
    {
      stackA := new DiskStack();
      stackB := new DiskStack();
      stackC := new DiskStack();
      nbIterations := 0;
      pool := {};
    }

    /**
     * PrintStacks: one snapshot of the three towers, labelled with the
     * current iteration number, which it then increments.  The text is what
     * the program writes.
     */
    method PrintStacks() returns (text: string)
      requires Valid()
      modifies this`nbIterations
      ensures Valid()
      ensures nbIterations == old(nbIterations) + 1
      ensures text == Snapshot(old(nbIterations), Render(stackA.Disks()), Render(stackB.Disks()),
                               Render(stackC.Disks()))
    {
      var a := stackA.PrintStack();
      var b := stackB.PrintStack();
      var c := stackC.PrintStack();
      text := Snapshot(nbIterations, a, b, c);
      label before:
      nbIterations := nbIterations + 1;
      ValidStays@before();
    }

    /**
     * MoveDiskToDestination: the move gate.  The node lists of the two
     * towers become what `TransferNodes` says (so their disks become what
     * `Transfer` says, by TransferData): the top node moves from one list to
     * the other when the move is legal, and a snapshot is taken exactly when
     * a disk moved.  The ghost parameter names the third tower, which the call
     * leaves alone.
     */
    method MoveDiskToDestination(src: DiskStack, dst: DiskStack, ghost other: DiskStack)
      returns (moved: bool)
      requires Partition(src, dst, other) && Roles(src, dst, other)
      modifies {src, dst}`top, {src, dst}`nodes, {src, dst}`repr, this`nbIterations, src.repr`right
      ensures Partition(src, dst, other)
      ensures var m := TransferNodes(old(src.nodes), old(dst.nodes));
        moved == m.moved && src.nodes == m.src && dst.nodes == m.dst
      ensures nbIterations == old(nbIterations) + (if moved then 1 else 0)
    {
      moved := false;
      var pSourceTop := src.GetTopDisk();
      var pDestinationTop := dst.GetTopDisk();
      if pSourceTop != null {
        var moveTheDisk := false;
        if pDestinationTop == null {
          moveTheDisk := true;
        } else if pSourceTop.GetData() < pDestinationTop.GetData() {
          moveTheDisk := true;
        }
        if moveTheDisk {
          MoveTopNode(src, dst, other);
          ValidInRoles(src, dst, other);
          var _ := PrintStacks();
          ValidInRoles(src, dst, other);
          moved := true;
        }
      }
    }

    /**
     * The statement PushToStack(PopFromStack()) of MoveDiskToDestination, for a
     * non-empty source: its top node becomes the destination's top.
     */
    method MoveTopNode(src: DiskStack, dst: DiskStack, ghost other: DiskStack)
      requires Partition(src, dst, other) && src.nodes != []
      modifies {src, dst}`top, {src, dst}`nodes, {src, dst}`repr, src.repr`right
      ensures Partition(src, dst, other)
      ensures src.nodes == old(src.nodes[1..]) && dst.nodes == [old(src.nodes[0])] + old(dst.nodes)
    {
      ghost var s0 := src.nodes;
      assert s0[0] in src.repr;
      var pNode := src.PopFromStack();
      assert pNode !in dst.repr && pNode !in other.repr;
      dst.PushToStack(pNode);
    }

    /**
     * TowerOfHanoi: for a node whose left chain has k nodes, the towers end
     * up holding the node lists `SolveNodes` computes for k (so the disks
     * `Solve` computes, by SolveData), and nbIterations grows by the number
     * of moves that succeeded.  A null node is the invalid-input case:
     * nothing changes.  The left links are never touched, so the chain
     * survives.
     */
    method TowerOfHanoi(ipCurrentNode: Node?, src: DiskStack, dst: DiskStack, hlp: DiskStack,
                        ghost chain: seq<Node>)
      requires Partition(src, dst, hlp) && Roles(src, dst, hlp)
      requires LeftChain(ipCurrentNode, chain)
      modifies {src, dst, hlp}`top, {src, dst, hlp}`nodes, {src, dst, hlp}`repr, this`nbIterations, pool`right
      decreases |chain|
      ensures Partition(src, dst, hlp) && pool == old(pool)
      ensures LeftChain(ipCurrentNode, chain)
      ensures var r := SolveNodes(|chain|, old(src.nodes), old(dst.nodes), old(hlp.nodes));
        && src.nodes == r.src && dst.nodes == r.dst && hlp.nodes == r.hlp
        && nbIterations == old(nbIterations) + r.moved
    {
      if ipCurrentNode == null {
        // "Invalid input"
        return;
      }
      var pNode := ipCurrentNode.GetLeftNode();
      ghost var a0, b0, c0 := src.nodes, dst.nodes, hlp.nodes;
      if pNode == null {
        assert |chain| == 1;
        var _ := MoveDiskToDestination(src, dst, hlp);
      } else {
        ghost var tail := chain[1..];
        assert |chain| == |tail| + 1 >= 2 && LeftChain(pNode, tail);
        ghost var r1 := SolveNodes(|tail|, a0, c0, b0);
        PartitionSwapLast(src, dst, hlp);
        TowerOfHanoi(pNode, src, hlp, dst, tail);
        PartitionSwapLast(src, hlp, dst);
        assert src.nodes == r1.src && hlp.nodes == r1.dst && dst.nodes == r1.hlp;
        ghost var m := TransferNodes(r1.src, r1.hlp);
        var _ := MoveDiskToDestination(src, dst, hlp);
        assert src.nodes == m.src && dst.nodes == m.dst && hlp.nodes == r1.dst;
        ghost var r2 := SolveNodes(|tail|, r1.dst, m.dst, m.src);
        PartitionSwapOuter(src, dst, hlp);
        TowerOfHanoi(pNode, hlp, dst, src, tail);
        PartitionSwapOuter(hlp, dst, src);
        assert hlp.nodes == r2.src && dst.nodes == r2.dst && src.nodes == r2.hlp;
      }
    }

    /**
     * The setup loop of main: nodes nbDisks down to 1 are created and pushed
     * onto tower A, each becoming the left link of the disk pushed before it.
     * Afterwards A holds 1..nbDisks top to bottom (nothing for nbDisks <= 0),
     * the returned first node is disk nbDisks (null when there is none), and
     * its left chain visits nbDisks, nbDisks - 1, ..., 1.
     */
    method PushDisks(nbDisks: int) returns (pFirstNode: Node?, ghost chain: seq<Node>)
      requires Valid() && stackA.nodes == [] && stackB.nodes == [] && stackC.nodes == [] && pool == {}
      modifies stackA`top, stackA`nodes, stackA`repr, this`pool
      ensures Valid()
      ensures stackA.Disks() == Range(if nbDisks > 0 then nbDisks else 0)
      ensures stackB.nodes == [] && stackC.nodes == []
      ensures LeftChain(pFirstNode, chain)
      ensures |chain| == (if nbDisks > 0 then nbDisks else 0)
      ensures forall i :: 0 <= i < |chain| ==> chain[i].data == nbDisks - i
      ensures forall i :: 0 <= i < |chain| ==> chain[i] == stackA.nodes[|chain| - 1 - i]
      ensures forall n :: n in pool ==> fresh(n)
    {
      pFirstNode := null;
      chain := [];
      var nDiskIndex := nbDisks;
      while nDiskIndex > 0
        invariant stackA.Valid()
        invariant nbDisks > 0 ==> 0 <= nDiskIndex <= nbDisks
        invariant nbDisks <= 0 ==> nDiskIndex == nbDisks
        invariant |chain| == |stackA.nodes| == (if nbDisks > 0 then nbDisks - nDiskIndex else 0)
        invariant forall i :: 0 <= i < |stackA.nodes| ==> stackA.nodes[i].data == nDiskIndex + 1 + i
        invariant forall i :: 0 <= i < |chain| ==> chain[i] == stackA.nodes[|chain| - 1 - i]
        invariant LeftLinks(chain) && pFirstNode == (if chain == [] then null else chain[0])
        invariant forall n :: n in stackA.repr ==> fresh(n)
      {
        var pNode := AddDisk(nDiskIndex, chain);
        if pFirstNode == null {
          pFirstNode := pNode;
        }
        chain := chain + [pNode];
        nDiskIndex := nDiskIndex - 1;
      }
      pool := stackA.repr;
      LeftLinksChain(chain);
      DataOfCounts(stackA.nodes);
    }

    /**
     * One pass of the setup loop: a new node for disk d becomes the left
     * link of tower A's top node, if there is one, and is pushed onto A.
     */
    method AddDisk(d: int, ghost chain: seq<Node>) returns (pNode: Node)
      requires stackA.Valid() && LeftLinks(chain)
      requires stackA.nodes == [] <==> chain == []
      requires stackA.nodes != [] ==> stackA.nodes[0] == chain[|chain| - 1]
      modifies stackA`top, stackA`nodes, stackA`repr, stackA.repr`left
      ensures fresh(pNode) && pNode.data == d
      ensures stackA.Valid() && stackA.nodes == [pNode] + old(stackA.nodes)
      ensures stackA.repr == old(stackA.repr) + {pNode}
      ensures LeftLinks(chain + [pNode])
    {
      pNode := new Node(d);
      var pTopDisk := stackA.GetTopDisk();
      if pTopDisk != null {
        // the top node is the last of the chain, the only one without a left link
        assert pTopDisk == chain[|chain| - 1] && pTopDisk in stackA.repr;
        pTopDisk.SetLeftNode(pNode);
      }
      stackA.PushToStack(pNode);
    }
  }

  /** The snapshot PrintStacks writes for iteration `n`, given the three tower lines. */
  function Snapshot(n: int, a: string, b: string, c: string): string
  {
    "Iteration: " + DecimalString(n) + "\n"
    + "         [TOP]" + "\n"
    + "Tower A: " + a
    + "Tower B: " + b
    + "Tower C: " + c
    + "\n"
    + "-----------------------------" + "\n"
  }

  /**
   * main after reading nbDisks: set up the towers, take the initial
   * snapshot, and solve from A to C with B as the helper.  At the end A and
   * B are empty, C holds 1..nbDisks top to bottom, and nbIterations is 2^N,
   * N being nbDisks or 0 if it is not positive: the first snapshot plus
   * 2^N - 1 moves, every one of which succeeded.
   */
  method Run(nbDisks: int) returns (t: Towers)
    ensures t.Valid()
    ensures var n := if nbDisks > 0 then nbDisks else 0;
      && t.stackA.Disks() == [] && t.stackB.Disks() == []
      && t.stackC.Disks() == Range(n)
      && t.nbIterations == Pow2(n)
  {
    t := new Towers();
    var pFirstNode, chain := t.PushDisks(nbDisks);
    var _ := t.PrintStacks();
    ghost var n := if nbDisks > 0 then nbDisks else 0;
    ghost var a, b, c := t.stackA.nodes, t.stackB.nodes, t.stackC.nodes;
    SolvePuzzle(n);
    SolveData(n, a, c, b);
    t.ValidInRoles(t.stackA, t.stackC, t.stackB);
    t.TowerOfHanoi(pFirstNode, t.stackA, t.stackC, t.stackB, chain);
    t.ValidInRoles(t.stackA, t.stackC, t.stackB);
  }
}
