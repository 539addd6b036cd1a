/**
 * DiskStack (Tower_Of_Hanoi/Sources/DiskStack.cpp): a LIFO stack of nodes
 * linked through their right pointers, `top` being the most recently pushed.
 * The ghost sequence `nodes` lists the linked nodes from top to bottom, and
 * `Disks()` the data they hold.
 */
module DiskStacks {
  import opened Nodes

  /** The data held by a sequence of nodes, in the same order. */
  ghost function DataOf(ns: seq<Node>): (ds: seq<int>)
    ensures |ds| == |ns|
  {
    if ns == [] then [] else [ns[0].data] + DataOf(ns[1..])
  }

  /** Entry i of the data is the data of node i. */
  lemma {:induction false} DataOfAt(ns: seq<Node>, i: nat)
    requires i < |ns|
    ensures DataOf(ns)[i] == ns[i].data
  {
    if i > 0 {
      DataOfAt(ns[1..], i - 1);
    }
  }

  /**
   * `ns` is a null-terminated list through right links: each node's right
   * link is the next node (null for the last one), and no node occurs twice.
   */
  ghost predicate Linked(ns: seq<Node>)
    reads ns`right
  {
    ns == [] ||
    (&& ns[0] !in ns[1..]
     && ns[0].right == (if |ns| == 1 then null else ns[1])
     && Linked(ns[1..]))
  }

  /** In a linked list, node i's right link is node i + 1, or null for the last node. */
  lemma {:induction false} LinkedAt(ns: seq<Node>, i: nat)
    requires Linked(ns) && i < |ns|
    ensures ns[i].right == (if i + 1 < |ns| then ns[i + 1] else null)
  {
    if i > 0 {
      LinkedAt(ns[1..], i - 1);
    }
  }

  class DiskStack {
    var top: Node?
    ghost var nodes: seq<Node>
    /** The nodes in `nodes`, as a set: the frame of the links. */
    ghost var repr: set<Node>

    /**
     * The right links spell out `nodes`: `top` is the first of them, each
     * node's right link is the next one, the last one's right link is null,
     * no node occurs twice (the list is acyclic), and `repr` holds these
     * nodes.
     */
    ghost predicate Valid()
      reads this, repr`right
    {
      && (forall i :: 0 <= i < |nodes| ==> nodes[i] in repr)
      && (nodes == [] ==> top == null)
      && (nodes != [] ==> top == nodes[0])
      && Linked(nodes)
    }

    /** The disks on this peg, from top to bottom. */
    ghost function Disks(): (ds: seq<int>)
      reads this
    {
      DataOf(nodes)
    }

    constructor ()
      ensures Valid() && nodes == [] && repr == {}
    {
      top := null;
      nodes := [];
      repr := {};
    }

    /** GetTopDisk: the top node, or null on an empty stack; reads only. */
    function GetTopDisk(): (t: Node?)
      reads this, repr`right
      requires Valid()
      ensures t == null <==> nodes == []
      ensures t != null ==> t == nodes[0]
    {
      top
    }

    /**
     * PushToStack: a non-null node becomes the top, with the old contents
     * unchanged beneath it; pushing null changes nothing.  A node already on
     * the stack is never pushed again, so this is required.
     */
    method PushToStack(iopNode: Node?)
      requires Valid()
      requires iopNode != null ==> iopNode !in nodes
      modifies this`top, this`nodes, this`repr, Designated(iopNode)`right
      ensures Valid()
      ensures iopNode == null ==> nodes == old(nodes) && top == old(top) && repr == old(repr)
      ensures iopNode != null ==> nodes == [iopNode] + old(nodes) && repr == old(repr) + {iopNode}
    {
      if iopNode != null {
        iopNode.SetRightNode(top);
        top := iopNode;
        nodes := [iopNode] + nodes;
        repr := repr + {iopNode};
        assert forall i :: 1 <= i < |nodes| ==> nodes[i] == old(nodes)[i - 1];
      }
    }

    /**
     * PopFromStack: on a non-empty stack returns the old top, leaves the rest
     * as it was and clears the popped node's right link; on an empty stack
     * returns null and changes nothing.
     */
    method PopFromStack() returns (pNode: Node?)
      requires Valid()
      modifies this`top, this`nodes, this`repr, Designated(top)`right
      ensures Valid()
      ensures old(nodes) == [] ==> pNode == null && nodes == [] && top == null && repr == old(repr)
      ensures old(nodes) != [] ==>
                && pNode == old(nodes[0]) && nodes == old(nodes[1..]) && pNode.right == null
                && repr == old(repr) - {pNode}
    {
      pNode := top;
      if pNode != null {
        top := pNode.GetRightNode();
        pNode.SetRightNode(null);
        nodes := nodes[1..];
        assert pNode !in nodes;
        repr := repr - {pNode};
      }
    }

    /**
     * The destructor's drain loop: pops until a pop reports the stack empty.
     * Each pop shortens the stack, so the loop ends, with the stack empty and
     * every node it held unlinked.
     */
    method Drain()
      requires Valid()
      modifies this`top, this`nodes, this`repr, repr`right
      ensures Valid() && nodes == []
      ensures forall n :: n in old(nodes) ==> n.right == null
    {
      ghost var k := 0;
      var pNode := PopFromStack();
      if pNode != null {
        k := 1;
      }
      while pNode != null
        invariant Valid()
        invariant 0 <= k <= |old(nodes)| && nodes == old(nodes)[k..]
        invariant pNode == null ==> nodes == []
        invariant forall j :: 0 <= j < k ==> old(nodes)[j].right == null
        decreases |nodes| + (if pNode == null then 0 else 1)
      {
        assert top == null || top == old(nodes)[k];
        pNode := PopFromStack();
        if pNode != null {
          k := k + 1;
        }
      }
    }

    /**
     * PrintStack: walks the right links from the top and renders each disk;
     * the result is the text it writes.  It only reads the stack.
     */
    method PrintStack() returns (text: string)
      requires Valid()
      ensures text == Render(Disks())
    {
      ghost var ds := Disks();
      text := "";
      var pNode := top;
      ghost var i := 0;
      while pNode != null
        invariant 0 <= i <= |nodes|
        invariant pNode == (if i < |nodes| then nodes[i] else null)
        invariant 0 < i < |ds| ==> text == Entries(ds[..i]) + ", "
        invariant i == 0 || i == |ds| ==> text == Entries(ds[..i])
        decreases |nodes| - i
      {
        DataOfAt(nodes, i);
        LinkedAt(nodes, i);
        var entry := "Disk " + DecimalString(pNode.GetData());
        EntriesPrefix(ds, i, text, entry);
        text := text + entry;
        pNode := pNode.GetRightNode();
        i := i + 1;
        if pNode != null {
          text := text + ", ";
        }
      }
      assert ds[..i] == ds;
      text := text + "\n";
    }
  }

  /**
   * The push/pop round trip: popping right after pushing a node returns that
   * node and leaves the stack as it was.
   */
  method PushThenPop(s: DiskStack, n: Node) returns (p: Node?)
    requires s.Valid() && n !in s.nodes
    modifies s`top, s`nodes, s`repr, n`right
    ensures p == n && n.right == null
    ensures s.Valid() && s.nodes == old(s.nodes) && s.top == old(s.top)
  {
    s.PushToStack(n);
    p := s.PopFromStack();
  }

  /** `n` the way `std::ostream << int` writes it: decimal, '-' if negative. */
  function DecimalString(n: int): (s: string)
    ensures s != [] && (s[0] == '-' <==> n < 0)
  {
    if n < 0 then "-" + NatString(-n) else NatString(n)
  }

  function NatString(n: nat): (s: string)
    ensures s != []
    ensures forall i :: 0 <= i < |s| ==> '0' <= s[i] <= '9'
  {
    if n < 10 then [Digit(n)] else NatString(n / 10) + [Digit(n % 10)]
  }

  function Digit(d: nat): (c: char)
    requires d < 10
    ensures c as int - '0' as int == d
  {
    "0123456789"[d]
  }

  /** The number a string of decimal digits denotes, most significant first. */
  function DigitsValue(s: string): int
  {
    if s == [] then 0 else 10 * DigitsValue(s[..|s| - 1]) + (s[|s| - 1] as int - '0' as int)
  }

  /** The number a decimal text denotes, with an optional leading '-'. */
  function DecimalValue(s: string): int
  {
    if s != [] && s[0] == '-' then -DigitsValue(s[1..]) else DigitsValue(s)
  }

  /** The digits NatString writes denote n. */
  lemma {:induction false} NatStringValue(n: nat)
    ensures DigitsValue(NatString(n)) == n
  {
    var s := NatString(n);
    if n < 10 {
      assert s[..|s| - 1] == [];
    } else {
      NatStringValue(n / 10);
      assert s[..|s| - 1] == NatString(n / 10);
    }
  }

  /** The text DecimalString writes denotes n, negative numbers included. */
  lemma DecimalStringValue(n: int)
    ensures DecimalValue(DecimalString(n)) == n
  {
    if n < 0 {
      NatStringValue(-n);
      assert DecimalString(n)[1..] == NatString(-n);
    } else {
      NatStringValue(n);
    }
  }

  /** The disk entry "Disk <n>". */
  function Entry(d: int): string
  {
    "Disk " + DecimalString(d)
  }

  /** The entries of `ds`, top first, joined by ", ". */
  function Entries(ds: seq<int>): string
  {
    if ds == [] then ""
    else if |ds| == 1 then Entry(ds[0])
    else Entry(ds[0]) + ", " + Entries(ds[1..])
  }

  /**
   * One step of PrintStack's loop: the text of the first i entries (and the
   * separator, if there was an entry), followed by entry i, is the text of
   * the first i + 1 entries.
   */
  lemma EntriesPrefix(ds: seq<int>, i: nat, text: string, entry: string)
    requires i < |ds| && entry == Entry(ds[i])
    requires 0 < i ==> text == Entries(ds[..i]) + ", "
    requires i == 0 ==> text == ""
    ensures text + entry == Entries(ds[..i + 1])
  {
    if i == 0 {
      assert ds[..1] == [ds[0]];
    } else {
      assert ds[..i + 1] == ds[..i] + [ds[i]];
      EntriesSnoc(ds[..i], ds[i]);
    }
  }

  /** What PrintStack writes for a peg holding `ds`: the entries, then a newline. */
  function Render(ds: seq<int>): string
  {
    Entries(ds) + "\n"
  }

  /**
   * Appending a disk at the bottom appends one entry, after a separator when
   * there was an entry before: this is how the loop of PrintStack builds the
   * text front to back.
   */
  lemma {:induction false} EntriesSnoc(ds: seq<int>, d: int)
    ensures Entries(ds + [d]) == Entries(ds) + (if ds == [] then "" else ", ") + Entry(d)
  {
    if |ds| > 1 {
      assert (ds + [d])[1..] == ds[1..] + [d];
      EntriesSnoc(ds[1..], d);
    } else if |ds| == 1 {
      assert (ds + [d])[1..] == [d];
    }
  }
}
