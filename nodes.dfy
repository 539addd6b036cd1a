/**
 * The node of SharedHeaders/Node.h: a data element and two links.
 * The data is fixed at construction (there is no setter for it), so it is a
 * `const`; the two links are plain mutable fields.  The getters are functions,
 * so by construction they cannot change the node, and each one reads only the
 * field it returns.
 */
module Nodes {

  class Node {
    const data: int
    var left: Node?
    var right: Node?

    /** Node(inData = 0): stores the data, both links start out null. */
    constructor (inData: int := 0)
      ensures data == inData
      ensures left == null && right == null
    {
      data := inData;
      left := null;
      right := null;
    }

    function GetData(): (d: int)
      ensures d == data
    {
      data
    }

    function GetLeftNode(): (l: Node?)
      reads this`left
      ensures l == left
    {
      left
    }

    function GetRightNode(): (r: Node?)
      reads this`right
      ensures r == right
    {
      right
    }

    /** Overwrites the left link only: data and the right link stay. */
    method SetLeftNode(ipLeftNode: Node?)
      modifies this`left
      ensures left == ipLeftNode
    {
      left := ipLeftNode;
    }

    /** Overwrites the right link only: data and the left link stay. */
    method SetRightNode(ipRightNode: Node?)
      modifies this`right
      ensures right == ipRightNode
    {
      right := ipRightNode;
    }
  }

  /** The node a nullable pointer designates, as a frame: empty for null. */
  ghost function Designated(p: Node?): (s: set<Node>)
    ensures p == null ==> s == {}
    ensures p != null ==> s == {p}
  {
    if p == null then {} else {p}
  }

  /**
   * The accessor laws of the node, as a client sees them: a getter returns
   * what the matching setter stored last, and setting one link leaves the
   * other link as it was.
   */
  method AccessorLaws(n: Node, l: Node?, r: Node?)
    returns (rightAfterSetLeft: Node?, leftAfterSetRight: Node?, gotRight: Node?)
    modifies n`left, n`right
    ensures rightAfterSetLeft == old(n.right)
    ensures leftAfterSetRight == l && gotRight == r
  {
    n.SetLeftNode(l);
    rightAfterSetLeft := n.GetRightNode();
    n.SetRightNode(r);
    leftAfterSetRight := n.GetLeftNode();
    gotRight := n.GetRightNode();
  }
}
