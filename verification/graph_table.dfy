/** The editor's graph as it is stored: two fixed arrays, edited in place. */
module GraphTable {
  import opened NodeGraph

  class Graph {
    const nodes: array<Node>
    var nodeCount: nat
    const edges: array<Link>
    var edgeCount: nat
    var nextKey: nat

    ghost predicate Valid()
      reads this, edges
    {
      && nodes.Length == NODES_MAX && nodeCount <= NODES_MAX
      && edges.Length == EDGES_MAX && edgeCount <= EDGES_MAX
      && OneWirePerInput(edges[..edgeCount])
    }

    /** The model the tables stand for; the order of the wires does not matter to it. */
    ghost function Contents(): Model
      requires Valid()
      reads this, nodes, edges
    {
      Model(nodes[..nodeCount], Wires(edges[..edgeCount]), nextKey)
    }

    constructor ()
      ensures Valid() && fresh(nodes) && fresh(edges)
    {
      nodes := new Node[NODES_MAX](_ => Node(0, "", Source, Position(0.0, 0.0), 0, 0));
      edges := new Link[EDGES_MAX](_ => Link(Port(0, 0), Port(0, 0)));
      nodeCount, edgeCount, nextKey := 0, 0, 0;
    }

    method Reset()
      requires Valid()
      modifies this, nodes, edges
      ensures Valid() && Contents() == Edited(old(Contents()), Edit.Reset)
    {
      nodeCount, edgeCount := 0, 0;
      forall i | 0 <= i < |STARTING_NODES| {
        nodes[i] := STARTING_NODES[i];
      }
      nodeCount := 5;
      forall i | 0 <= i < |STARTING_LINKS| {
        edges[i] := STARTING_LINKS[i];
      }
      edgeCount := 5;
      nextKey := KEY_OUTPUT + 1;
      assert nodes[..5] == STARTING_NODES;
      assert edges[..5] == STARTING_LINKS;
      StartingLinksWire();
    }

    /** Overwrites edge i with the last one, which drops the wire of edge i and no other. */
    method SwapOut(i: nat)
      requires Valid() && i < edgeCount
      modifies this`edgeCount, edges
      ensures Valid() && edgeCount == old(edgeCount) - 1
      ensures forall j | 0 <= j < edgeCount :: edges[j] == old(if j == i then edges[edgeCount - 1] else edges[j])
      ensures Wires(edges[..edgeCount]) == old(Wires(edges[..edgeCount]) - {edges[i].dst})
    {
      SwapRemoveDropsOneWire(edges[..edgeCount], i);
      edges[i] := edges[edgeCount - 1];
      edgeCount := edgeCount - 1;
      assert edges[..edgeCount] == SwapRemoved(old(edges[..edgeCount]), i);
    }

    /** Drops the wire landing on an input, and says whether there was one. */
    method Detach(dst: Port) returns (removed: bool)
      requires Valid()
      modifies this`edgeCount, edges
      ensures Valid() && Contents() == Edited(old(Contents()), Edit.Detach(dst))
      ensures removed == (dst in old(Contents()).wires)
    {
      var i := 0;
      while i < edgeCount
        invariant i <= edgeCount
        invariant forall j | 0 <= j < i :: edges[j].dst != dst
      {
        if edges[i].dst == dst {
          SwapOut(i);
          return true;
        }
        i := i + 1;
      }
      return false;
    }

    /** The input ends up with this wire alone, or with none if the table is full; no node is wired to itself. */
    method Connect(l: Link)
      requires Valid()
      modifies this`edgeCount, edges
      ensures Valid() && Contents() == Edited(old(Contents()), Edit.Connect(l))
    {
      if l.src.node == l.dst.node {
        return;
      }
      var _ := Detach(l.dst);
      ghost var freed := Contents();
      EdgeCountIsWires();
      hide Valid, Contents, Wires, OneWirePerInput;
      if edgeCount >= EDGES_MAX {
        return;
      }
      Append(l);
    }

    lemma EdgeCountIsWires()
      requires Valid()
      ensures |Contents().wires| == edgeCount
    {
      OneEntryPerLink(edges[..edgeCount]);
    }

    /** Adds a wire to an input that has none. */
    method Append(l: Link)
      requires Valid() && edgeCount < EDGES_MAX && l.dst !in Contents().wires
      modifies this`edgeCount, edges
      ensures Valid() && Contents() == old(Contents()).(wires := old(Contents()).wires[l.dst := l.src])
    {
      ghost var links := edges[..edgeCount];
      AppendAddsOneWire(links, l);
      edges[edgeCount] := l;
      edgeCount := edgeCount + 1;
      assert edges[..edgeCount] == links + [l];
    }

    /** Drops every wire touching a node, on either end, walking backwards. */
    method Unwire(key: nat)
      requires Valid()
      modifies this`edgeCount, edges
      ensures Valid() && Contents() == Edited(old(Contents()), Edit.Unwire(key))
    {
      hide Wires, Unwired;
      ghost var start := edges[..edgeCount];
      var i := edgeCount;
      while i > 0
        invariant Valid() && 0 <= i <= edgeCount
        invariant forall j | i <= j < edgeCount :: !Touches(edges[j], key)
        invariant Unwired(Wires(edges[..edgeCount]), key) == Unwired(Wires(start), key)
      {
        if Touches(edges[i - 1], key) {
          UnwiredWithout(edges[..edgeCount], i - 1, key);
          SwapOut(i - 1);
        }
        i := i - 1;
      }
      UnwiredAlready(edges[..edgeCount], key);
    }

    /** Takes a node out of the table, with every wire that touches it. */
    method Remove(key: nat)
      requires Valid()
      modifies this`nodeCount, this`edgeCount, nodes, edges
      ensures Valid() && Contents() == Edited(old(Contents()), Edit.Remove(key))
    {
      hide Wires, OneWirePerInput, Without, Unwired;
      Unwire(key);
      var i := 0;
      while i < nodeCount && nodes[i].key != key
        invariant i <= nodeCount
        invariant forall j | 0 <= j < i :: nodes[j].key != key
      {
        i := i + 1;
      }
      ghost var was := nodes[..nodeCount];
      if i < nodeCount {
        WithoutFirst(was, i, key);
        assert was[..i] == nodes[..i] && was[i + 1..] == nodes[i + 1..nodeCount];
        CloseGap(i);
        nodeCount := nodeCount - 1;
        assert nodes[..nodeCount] == was[..i] + was[i + 1..];
      } else {
        WithoutNone(was, key);
      }
    }

    /** Moves the nodes after slot i one slot down. */
    method CloseGap(i: nat)
      requires nodes.Length == NODES_MAX && i < nodeCount <= NODES_MAX
      modifies nodes
      ensures nodes[..nodeCount - 1] == old(nodes[..i] + nodes[i + 1..nodeCount])
    {
      var j := i;
      while j + 1 < nodeCount
        invariant i <= j < nodeCount
        invariant forall k | 0 <= k < nodeCount ::
          nodes[k] == old(if i <= k < j then nodes[k + 1] else nodes[k])
      {
        nodes[j] := nodes[j + 1];
        j := j + 1;
      }
    }

    /** A new node under the next key; a full table stays as it is. */
    method Add(position: Position)
      requires Valid()
      modifies this`nodeCount, this`nextKey, nodes
      ensures Valid() && Contents() == Edited(old(Contents()), Edit.Add(position))
    {
      if nodeCount >= NODES_MAX {
        return;
      }
      nodes[nodeCount] := Node(nextKey, "blur", Filter, position, 1, 1);
      nextKey := nextKey + 1;
      nodeCount := nodeCount + 1;
    }

    /** How many input ports the graph has. */
    method InputPorts() returns (total: nat)
      requires Valid()
      ensures total == InputTotal(Contents().nodes)
    {
      total := 0;
      for i := 0 to nodeCount
        invariant total == InputTotal(nodes[..i])
      {
        InputTotalAppends(nodes[..i], nodes[i]);
        assert nodes[..i + 1] == nodes[..i] + [nodes[i]];
        total := total + nodes[i].inputs;
      }
    }
  }

  lemma UnwiredAlready(links: seq<Link>, key: nat)
    requires OneWirePerInput(links) && forall j | 0 <= j < |links| :: !Touches(links[j], key)
    ensures Unwired(Wires(links), key) == Wires(links)
  {
  }

  lemma UnwiredWithout(links: seq<Link>, i: nat, key: nat)
    requires OneWirePerInput(links) && i < |links| && Touches(links[i], key)
    ensures Unwired(Wires(links) - {links[i].dst}, key) == Unwired(Wires(links), key)
  {
    assert links[i].dst in Wires(links) && Wires(links)[links[i].dst] == links[i].src;
  }
}
