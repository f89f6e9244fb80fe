/** The node-graph editor's model: nodes, and wires from output ports to input ports. */
module NodeGraph {

  const NODES_MAX: nat := 8
  const EDGES_MAX: nat := 16

  const KEY_SOURCE: nat := 1
  const KEY_BLUR: nat := 2
  const KEY_GRADE: nat := 3
  const KEY_MIX: nat := 4
  const KEY_OUTPUT: nat := 5

  datatype NodeType = Source | Filter | Sink

  datatype Position = Position(x: real, y: real)

  datatype Node = Node(key: nat, title: string, kind: NodeType, position: Position, inputs: nat, outputs: nat)

  /** One end of a wire: a node, by key, and the number of a port on its output or its input side. */
  datatype Port = Port(node: nat, port: nat)

  datatype Link = Link(src: Port, dst: Port)

  // ---- A table of links as a finite map ----------------------------------------------------------------------

  /** Every input port takes at most one wire. */
  ghost predicate OneWirePerInput(links: seq<Link>) {
    forall i, j | 0 <= i < j < |links| :: links[i].dst != links[j].dst
  }

  /** The wires as a map from input port to output port. */
  ghost function Wires(links: seq<Link>): map<Port, Port>
    requires OneWirePerInput(links)
  {
    map i | 0 <= i < |links| :: links[i].dst := links[i].src
  }

  lemma {:induction false} OneEntryPerLink(links: seq<Link>)
    requires OneWirePerInput(links)
    ensures |Wires(links)| == |links|
  {
    if links == [] {
      assert Wires(links) == map[];
    } else {
      var rest, last := links[..|links| - 1], links[|links| - 1];
      OneEntryPerLink(rest);
      AppendAddsOneWire(rest, last);
      assert rest + [last] == links;
    }
  }

  /** A link has an end on the node. */
  predicate Touches(l: Link, key: nat) {
    l.src.node == key || l.dst.node == key
  }

  /** The wires with no end on the node. */
  function Unwired(wires: map<Port, Port>, key: nat): map<Port, Port> {
    map dst | dst in wires && !Touches(Link(wires[dst], dst), key) :: wires[dst]
  }

  /** The table with entry i overwritten by the last one and one entry shorter. */
  function SwapRemoved<T>(s: seq<T>, i: nat): (r: seq<T>)
    requires i < |s|
    ensures |r| == |s| - 1
  {
    s[i := s[|s| - 1]][..|s| - 1]
  }

  /** Where entry k of a swap-removed table came from. */
  function CameFrom(k: nat, i: nat, last: nat): nat {
    if k == i then last else k
  }

  lemma SwapRemovedEntries<T>(s: seq<T>, i: nat)
    requires i < |s|
    ensures forall k | 0 <= k < |s| - 1 :: SwapRemoved(s, i)[k] == s[CameFrom(k, i, |s| - 1)]
  {
  }

  lemma SwapRemoveKeepsOneWire(links: seq<Link>, i: nat)
    requires OneWirePerInput(links) && i < |links|
    ensures OneWirePerInput(SwapRemoved(links, i))
  {
    SwapRemovedEntries(links, i);
    var rest, last := SwapRemoved(links, i), |links| - 1;
    forall j, k | 0 <= j < k < |rest| ensures rest[j].dst != rest[k].dst {
      var j', k' := CameFrom(j, i, last), CameFrom(k, i, last);
      assert links[if j' < k' then j' else k'].dst != links[if j' < k' then k' else j'].dst;
    }
  }

  lemma LinkOf(links: seq<Link>, p: Port) returns (k: nat)
    requires OneWirePerInput(links) && p in Wires(links)
    ensures k < |links| && links[k] == Link(Wires(links)[p], p)
  {
    k :| k < |links| && links[k].dst == p;
  }

  lemma WireOf(links: seq<Link>, k: nat)
    requires OneWirePerInput(links) && k < |links|
    ensures links[k].dst in Wires(links) && Wires(links)[links[k].dst] == links[k].src
  {
  }

  lemma SwapRemoveWire(links: seq<Link>, i: nat, p: Port)
    requires OneWirePerInput(links) && i < |links| && OneWirePerInput(SwapRemoved(links, i))
    ensures var rest := SwapRemoved(links, i);
      && (p in Wires(rest) <==> p in Wires(links) && p != links[i].dst)
      && (p in Wires(rest) ==> Wires(rest)[p] == Wires(links)[p])
  {
    hide Wires;
    SwapRemovedEntries(links, i);
    var rest, last := SwapRemoved(links, i), |links| - 1;
    if p in Wires(rest) {
      var k := LinkOf(rest, p);
      WireOf(links, CameFrom(k, i, last));
    } else if p in Wires(links) && p != links[i].dst {
      var k := LinkOf(links, p);
      WireOf(rest, if k == last then i else k);
    }
  }

  /** Filling the hole with the last link removes one input's wire and keeps all the others. */
  lemma SwapRemoveDropsOneWire(links: seq<Link>, i: nat)
    requires OneWirePerInput(links) && i < |links|
    ensures OneWirePerInput(SwapRemoved(links, i))
    ensures Wires(SwapRemoved(links, i)) == Wires(links) - {links[i].dst}
  {
    SwapRemoveKeepsOneWire(links, i);
    forall p {
      SwapRemoveWire(links, i, p);
    }
  }

  lemma AppendAddsOneWire(links: seq<Link>, l: Link)
    requires OneWirePerInput(links) && l.dst !in Wires(links)
    ensures OneWirePerInput(links + [l])
    ensures Wires(links + [l]) == Wires(links)[l.dst := l.src]
  {
    var longer := links + [l];
    assert forall i | 0 <= i < |links| :: longer[i] == links[i] && links[i].dst in Wires(links);
    assert longer[|links|] == l;
  }

  // ---- The model and its edits --------------------------------------------------------------------------------

  datatype Model = Model(nodes: seq<Node>, wires: map<Port, Port>, nextKey: nat)

  const STARTING_NODES: seq<Node> := [
    Node(KEY_SOURCE, "source", Source, Position(40.0, 60.0), 0, 2),
    Node(KEY_BLUR, "blur", Filter, Position(280.0, 30.0), 1, 1),
    Node(KEY_GRADE, "grade", Filter, Position(280.0, 190.0), 1, 1),
    Node(KEY_MIX, "mix", Filter, Position(520.0, 90.0), 2, 1),
    Node(KEY_OUTPUT, "output", Sink, Position(760.0, 110.0), 1, 0)
  ]

  const STARTING_LINKS: seq<Link> := [
    Link(Port(KEY_SOURCE, 0), Port(KEY_BLUR, 0)),
    Link(Port(KEY_SOURCE, 1), Port(KEY_GRADE, 0)),
    Link(Port(KEY_BLUR, 0), Port(KEY_MIX, 0)),
    Link(Port(KEY_GRADE, 0), Port(KEY_MIX, 1)),
    Link(Port(KEY_MIX, 0), Port(KEY_OUTPUT, 0))
  ]

  const STARTING_WIRES: map<Port, Port> := map[
    Port(KEY_BLUR, 0) := Port(KEY_SOURCE, 0),
    Port(KEY_GRADE, 0) := Port(KEY_SOURCE, 1),
    Port(KEY_MIX, 0) := Port(KEY_BLUR, 0),
    Port(KEY_MIX, 1) := Port(KEY_GRADE, 0),
    Port(KEY_OUTPUT, 0) := Port(KEY_MIX, 0)
  ]

  /** The starting compositor. */
  function Starting(): Model {
    Model(STARTING_NODES, STARTING_WIRES, KEY_OUTPUT + 1)
  }

  function Detached(m: Model, dst: Port): Model {
    m.(wires := m.wires - {dst})
  }

  /** A link frees the input it lands on and takes it; a link from a node to itself changes nothing. */
  function Connected(m: Model, l: Link): Model {
    if l.src.node == l.dst.node then m
    else
      var freed := Detached(m, l.dst);
      if |freed.wires| >= EDGES_MAX then freed else freed.(wires := freed.wires[l.dst := l.src])
  }

  /** The nodes without the first one that has the key, in the same order. */
  function Without(nodes: seq<Node>, key: nat): seq<Node> {
    if nodes == [] then []
    else if nodes[0].key == key then nodes[1..]
    else [nodes[0]] + Without(nodes[1..], key)
  }

  function Removed(m: Model, key: nat): Model {
    m.(nodes := Without(m.nodes, key), wires := Unwired(m.wires, key))
  }

  function Added(m: Model, position: Position): Model {
    if |m.nodes| >= NODES_MAX then m
    else m.(nodes := m.nodes + [Node(m.nextKey, "blur", Filter, position, 1, 1)], nextKey := m.nextKey + 1)
  }

  datatype Edit =
    | Reset
    | Connect(l: Link)
    | Detach(dst: Port)
    | Unwire(key: nat)
    | Remove(key: nat)
    | Add(position: Position)

  function Edited(m: Model, e: Edit): Model {
    match e
    case Reset => Starting()
    case Connect(l) => Connected(m, l)
    case Detach(dst) => Detached(m, dst)
    case Unwire(key) => m.(wires := Unwired(m.wires, key))
    case Remove(key) => Removed(m, key)
    case Add(position) => Added(m, position)
  }

  function EditedFrom(m: Model, edits: seq<Edit>): Model {
    if edits == [] then m else Edited(EditedFrom(m, edits[..|edits| - 1]), edits[|edits| - 1])
  }

  /** The graph after a run of edits, from the starting compositor on. */
  function EditedAll(edits: seq<Edit>): Model {
    EditedFrom(Starting(), edits)
  }

  // ---- What every run of edits keeps ---------------------------------------------------------------------------

  function InputTotal(nodes: seq<Node>): nat {
    if nodes == [] then 0 else nodes[0].inputs + InputTotal(nodes[1..])
  }

  /** The port exists on the input side of a node of the graph. */
  ghost predicate LiveInput(nodes: seq<Node>, p: Port) {
    exists i | 0 <= i < |nodes| :: nodes[i].key == p.node && p.port < nodes[i].inputs
  }

  ghost predicate LiveOutput(nodes: seq<Node>, p: Port) {
    exists i | 0 <= i < |nodes| :: nodes[i].key == p.node && p.port < nodes[i].outputs
  }

  /** Both ends of the link are ports that exist. */
  ghost predicate Live(nodes: seq<Node>, l: Link) {
    LiveOutput(nodes, l.src) && LiveInput(nodes, l.dst)
  }

  ghost predicate Sound(nodes: seq<Node>, l: Link) {
    Live(nodes, l) && l.src.node != l.dst.node
  }

  /** No wire dangles and none runs from a node to itself. */
  ghost predicate NoneDangle(nodes: seq<Node>, wires: map<Port, Port>) {
    forall dst | dst in wires :: Sound(nodes, Link(wires[dst], dst))
  }

  /** Keys are unique, nonzero and below the next one to be given out; only the mix node has two inputs. */
  ghost predicate NodesOk(nodes: seq<Node>, nextKey: nat) {
    && |nodes| <= NODES_MAX && nextKey > KEY_MIX
    && (forall i, j | 0 <= i < j < |nodes| :: nodes[i].key != nodes[j].key)
    && (forall i | 0 <= i < |nodes| :: 0 < nodes[i].key < nextKey)
    && (forall i | 0 <= i < |nodes| :: nodes[i].inputs <= if nodes[i].key == KEY_MIX then 2 else 1)
  }

  ghost predicate WellFormed(m: Model) {
    NodesOk(m.nodes, m.nextKey) && NoneDangle(m.nodes, m.wires)
  }

  /** The ports the inputs of the nodes amount to. */
  ghost function Inputs(nodes: seq<Node>): (ports: set<Port>)
    ensures forall p :: p in ports <==> LiveInput(nodes, p)
    ensures |ports| <= InputTotal(nodes)
  {
    if nodes == [] then {}
    else
      var first := PortsBelow(nodes[0].key, nodes[0].inputs);
      var rest := Inputs(nodes[1..]);
      assert forall p :: LiveInput(nodes, p) <==> p in first || LiveInput(nodes[1..], p) by {
        LiveInputSplits(nodes);
      }
      assert |first + rest| + |first * rest| == |first| + |rest|;
      first + rest
  }

  ghost function PortsBelow(key: nat, count: nat): (ports: set<Port>)
    ensures forall p :: p in ports <==> p.node == key && p.port < count
    ensures |ports| == count
  {
    if count == 0 then {} else PortsBelow(key, count - 1) + {Port(key, count - 1)}
  }

  lemma LiveInputSplits(nodes: seq<Node>)
    requires nodes != []
    ensures forall p :: LiveInput(nodes, p) <==>
      (p.node == nodes[0].key && p.port < nodes[0].inputs) || LiveInput(nodes[1..], p)
  {
    forall p | LiveInput(nodes[1..], p) ensures LiveInput(nodes, p) {
      var i :| 0 <= i < |nodes[1..]| && nodes[1..][i].key == p.node && p.port < nodes[1..][i].inputs;
      assert nodes[i + 1] == nodes[1..][i];
    }
    forall p | LiveInput(nodes, p)
      ensures (p.node == nodes[0].key && p.port < nodes[0].inputs) || LiveInput(nodes[1..], p)
    {
      var i :| 0 <= i < |nodes| && nodes[i].key == p.node && p.port < nodes[i].inputs;
      if i > 0 {
        assert nodes[1..][i - 1] == nodes[i];
      }
    }
  }

  /** At most one node has two inputs, so there is at most one input more than there are nodes. */
  lemma {:induction false} InputsPerNode(nodes: seq<Node>)
    requires forall i, j | 0 <= i < j < |nodes| :: nodes[i].key != nodes[j].key
    requires forall i | 0 <= i < |nodes| :: nodes[i].inputs <= if nodes[i].key == KEY_MIX then 2 else 1
    ensures InputTotal(nodes) <= |nodes| + if exists i | 0 <= i < |nodes| :: nodes[i].key == KEY_MIX then 1 else 0
  {
    if nodes != [] {
      InputsPerNode(nodes[1..]);
      if i :| 0 <= i < |nodes[1..]| && nodes[1..][i].key == KEY_MIX {
        assert nodes[i + 1].key == KEY_MIX;
      }
      assert nodes[0] in nodes;
    }
  }

  lemma SubsetCardinality<T>(a: set<T>, b: set<T>)
    requires a <= b
    ensures |a| <= |b|
  {
    assert |b - a| == |b| - |a|;
  }

  /** One wire an input, one more input than nodes: nine wires at most, where the table has room for sixteen. */
  lemma WiresFit(m: Model)
    requires WellFormed(m)
    ensures |m.wires| <= InputTotal(m.nodes) <= |m.nodes| + 1 <= 9 < EDGES_MAX
  {
    forall dst | dst in m.wires.Keys ensures dst in Inputs(m.nodes) {
      assert Sound(m.nodes, Link(m.wires[dst], dst));
    }
    SubsetCardinality(m.wires.Keys, Inputs(m.nodes));
    assert |m.wires| == |m.wires.Keys|;
    InputsPerNode(m.nodes);
  }

  lemma StartingLinksWire()
    ensures OneWirePerInput(STARTING_LINKS) && Wires(STARTING_LINKS) == STARTING_WIRES
  {
    StartingOneWire();
    hide Wires, OneWirePerInput;
    var wires := Wires(STARTING_LINKS);
    WireOf(STARTING_LINKS, 0);
    WireOf(STARTING_LINKS, 1);
    WireOf(STARTING_LINKS, 2);
    WireOf(STARTING_LINKS, 3);
    WireOf(STARTING_LINKS, 4);
    forall p | p in wires ensures p in STARTING_WIRES && STARTING_WIRES[p] == wires[p] {
      var k := LinkOf(STARTING_LINKS, p);
    }
  }

  lemma StartingOneWire()
    ensures OneWirePerInput(STARTING_LINKS)
  {
  }

  /** Node i of the starting graph has an output for the link's source, and node j an input for its end. */
  lemma StartSound(l: Link, i: nat, j: nat)
    requires i < |STARTING_NODES| && j < |STARTING_NODES| && i != j
    requires STARTING_NODES[i].key == l.src.node && l.src.port < STARTING_NODES[i].outputs
    requires STARTING_NODES[j].key == l.dst.node && l.dst.port < STARTING_NODES[j].inputs
    requires l.src.node != l.dst.node
    ensures Sound(STARTING_NODES, l)
  {
  }

  lemma StartingNodesOk()
    ensures NodesOk(STARTING_NODES, KEY_OUTPUT + 1)
  {
    var nodes := STARTING_NODES;
    assert nodes[0].key == 1 && nodes[1].key == 2 && nodes[2].key == 3 && nodes[3].key == 4 && nodes[4].key == 5;
  }

  lemma StartingWireSound(dst: Port)
    requires dst in STARTING_WIRES
    ensures Sound(STARTING_NODES, Link(STARTING_WIRES[dst], dst))
  {
    var l := Link(STARTING_WIRES[dst], dst);
    if dst == Port(KEY_BLUR, 0) {
      StartSound(l, 0, 1);
    } else if dst == Port(KEY_GRADE, 0) {
      StartSound(l, 0, 2);
    } else if dst == Port(KEY_MIX, 0) {
      StartSound(l, 1, 3);
    } else if dst == Port(KEY_MIX, 1) {
      StartSound(l, 2, 3);
    } else {
      StartSound(l, 3, 4);
    }
  }

  lemma StartsWellFormed()
    ensures WellFormed(Starting())
  {
    hide NodesOk, Sound;
    StartingNodesOk();
    forall dst | dst in STARTING_WIRES ensures Sound(STARTING_NODES, Link(STARTING_WIRES[dst], dst)) {
      StartingWireSound(dst);
    }
  }

  lemma ReplacingFits(wires: map<Port, Port>, l: Link)
    ensures |wires - {l.dst}| <= |wires|
    ensures (wires - {l.dst})[l.dst := l.src] == wires[l.dst := l.src]
  {
    var freed := wires - {l.dst};
    assert freed.Keys == wires.Keys - {l.dst};
    SubsetCardinality(freed.Keys, wires.Keys);
  }

  /** A well formed graph has room for the link, so connecting is plain map update. */
  lemma ConnectReplaces(m: Model, l: Link)
    requires WellFormed(m) && l.src.node != l.dst.node
    ensures Connected(m, l) == m.(wires := m.wires[l.dst := l.src])
  {
    WiresFit(m);
    ReplacingFits(m.wires, l);
  }

  lemma SoundIffAdded(nodes: seq<Node>, wires: map<Port, Port>, l: Link)
    requires NoneDangle(nodes, wires)
    ensures NoneDangle(nodes, wires[l.dst := l.src]) <==> Sound(nodes, l)
  {
    var wires' := wires[l.dst := l.src];
    assert l.dst in wires' && Link(wires'[l.dst], l.dst) == l;
    if Sound(nodes, l) {
      forall dst | dst in wires' ensures Sound(nodes, Link(wires'[dst], dst)) {
        assert dst != l.dst ==> wires'[dst] == wires[dst];
      }
    }
  }

  /** Connecting keeps the graph well formed exactly when the link joins a node to itself or two ports that exist. */
  lemma ConnectKeepsIffLive(m: Model, l: Link)
    requires WellFormed(m)
    ensures WellFormed(Connected(m, l)) <==> l.src.node == l.dst.node || Live(m.nodes, l)
  {
    if l.src.node != l.dst.node {
      ConnectReplaces(m, l);
      SoundIffAdded(m.nodes, m.wires, l);
    }
  }

  lemma {:induction false} WithoutFirst(nodes: seq<Node>, i: nat, key: nat)
    requires i < |nodes| && nodes[i].key == key
    requires forall j | 0 <= j < i :: nodes[j].key != key
    ensures Without(nodes, key) == nodes[..i] + nodes[i + 1..]
  {
    if i > 0 {
      var rest := nodes[1..];
      WithoutFirst(rest, i - 1, key);
      assert nodes[..i] == [nodes[0]] + rest[..i - 1] && nodes[i + 1..] == rest[i..];
    }
  }

  lemma {:induction false} WithoutNone(nodes: seq<Node>, key: nat)
    requires forall j | 0 <= j < |nodes| :: nodes[j].key != key
    ensures Without(nodes, key) == nodes
  {
    if nodes != [] {
      WithoutNone(nodes[1..], key);
      assert nodes == [nodes[0]] + nodes[1..];
    }
  }

  /** One entry taken out: the others stay, each still the only one with its key. */
  lemma OneTakenOut(nodes: seq<Node>, i: nat)
    requires i < |nodes| && forall j, k | 0 <= j < k < |nodes| :: nodes[j].key != nodes[k].key
    ensures var rest := nodes[..i] + nodes[i + 1..];
      && (forall n :: n in rest <==> n in nodes && n.key != nodes[i].key)
      && (forall j, k | 0 <= j < k < |rest| :: rest[j].key != rest[k].key)
  {
    var rest := nodes[..i] + nodes[i + 1..];
    assert forall k | 0 <= k < |rest| :: rest[k] == nodes[if k < i then k else k + 1];
    forall n | n in nodes && n.key != nodes[i].key ensures n in rest {
      var k :| 0 <= k < |nodes| && nodes[k] == n;
      assert rest[if k < i then k else k - 1] == n;
    }
  }

  lemma {:induction false} WithoutKeeps(nodes: seq<Node>, key: nat)
    requires forall i, j | 0 <= i < j < |nodes| :: nodes[i].key != nodes[j].key
    ensures |Without(nodes, key)| <= |nodes|
    ensures forall n :: n in Without(nodes, key) <==> n in nodes && n.key != key
    ensures forall i, j | 0 <= i < j < |Without(nodes, key)| :: Without(nodes, key)[i].key != Without(nodes, key)[j].key
  {
    hide Without;
    if i :| 0 <= i < |nodes| && nodes[i].key == key {
      WithoutFirst(nodes, i, key);
      OneTakenOut(nodes, i);
    } else {
      WithoutNone(nodes, key);
    }
  }

  /** The edits that name links name ports that exist; every other edit is unrestricted. */
  ghost predicate Reported(m: Model, e: Edit) {
    e.Connect? ==> e.l.src.node == e.l.dst.node || Live(m.nodes, e.l)
  }

  lemma RemoveKeepsWellFormed(m: Model, key: nat)
    requires WellFormed(m)
    ensures WellFormed(Removed(m, key))
  {
    var m' := Removed(m, key);
    WithoutKeeps(m.nodes, key);
    assert forall i | 0 <= i < |m'.nodes| :: m'.nodes[i] in m'.nodes;
    forall dst | dst in m'.wires ensures Sound(m'.nodes, Link(m'.wires[dst], dst)) {
      var l := Link(m.wires[dst], dst);
      assert Sound(m.nodes, l);
      StaysLive(m.nodes, m'.nodes, l);
    }
  }

  /** Ports stay while the nodes they are on stay. */
  lemma StaysLive(nodes: seq<Node>, nodes': seq<Node>, l: Link)
    requires Live(nodes, l)
    requires forall n | n in nodes && Touches(l, n.key) :: n in nodes'
    ensures Live(nodes', l)
  {
    var i :| 0 <= i < |nodes| && nodes[i].key == l.src.node && l.src.port < nodes[i].outputs;
    var j :| 0 <= j < |nodes| && nodes[j].key == l.dst.node && l.dst.port < nodes[j].inputs;
    assert nodes[i] in nodes' && nodes[j] in nodes';
  }

  lemma AddKeepsWellFormed(m: Model, position: Position)
    requires WellFormed(m)
    ensures WellFormed(Added(m, position))
  {
    var m' := Added(m, position);
    forall dst | dst in m'.wires ensures Sound(m'.nodes, Link(m'.wires[dst], dst)) {
      var l := Link(m.wires[dst], dst);
      assert Sound(m.nodes, l);
      StaysLive(m.nodes, m'.nodes, l);
    }
  }

  // ---- What adding, removing and connecting amount to ------------------------------------------------------------

  /** No wire has an end under a key not given out yet. */
  lemma WiresAreOld(m: Model)
    requires WellFormed(m)
    ensures forall dst | dst in m.wires :: dst.node < m.nextKey && m.wires[dst].node < m.nextKey
  {
    forall dst | dst in m.wires ensures dst.node < m.nextKey && m.wires[dst].node < m.nextKey {
      assert Sound(m.nodes, Link(m.wires[dst], dst));
    }
  }

  /**
   * The node table grows exactly when it has fewer than eight entries: at its end, under a key no node had, where the
   * click was, with one input and one output, both free.
   */
  lemma AddedNode(m: Model, position: Position)
    requires WellFormed(m)
    ensures var m', key, size := Added(m, position), m.nextKey, |m.nodes|;
      if size >= 8 then m' == m
      else
        && m'.wires == m.wires && m'.nextKey == key + 1
        && |m'.nodes| == size + 1 && m'.nodes[..size] == m.nodes
        && m'.nodes[size].key == key && m'.nodes[size].position == position
        && m'.nodes[size].title == "blur" && m'.nodes[size].kind == Filter
        && (forall port: nat :: LiveInput(m'.nodes, Port(key, port)) <==> port == 0)
        && (forall port: nat :: LiveOutput(m'.nodes, Port(key, port)) <==> port == 0)
        && Port(key, 0) !in m.wires && InputTotal(m'.nodes) == InputTotal(m.nodes) + 1
  {
    var m', size := Added(m, position), |m.nodes|;
    if size < 8 {
      assert m'.nodes[size].inputs == m'.nodes[size].outputs == 1;
      InputTotalAppends(m.nodes, m'.nodes[size]);
      WiresAreOld(m);
    }
  }

  lemma {:induction false} InputTotalAppends(nodes: seq<Node>, n: Node)
    ensures InputTotal(nodes + [n]) == InputTotal(nodes) + n.inputs
  {
    if nodes == [] {
      assert [] + [n] == [n];
    } else {
      InputTotalAppends(nodes[1..], n);
      assert (nodes + [n])[1..] == nodes[1..] + [n];
    }
  }

  lemma LiveStays(nodes: seq<Node>, n: Node, p: Port)
    ensures LiveInput(nodes, p) ==> LiveInput(nodes + [n], p)
    ensures LiveOutput(nodes, p) ==> LiveOutput(nodes + [n], p)
  {
    var more := nodes + [n];
    assert forall i | 0 <= i < |nodes| :: more[i] == nodes[i];
  }

  /** Any output there was can be wired to the new node, and the new node to any input there was. */
  lemma AddedCanBeWired(m: Model, position: Position, other: Port)
    requires WellFormed(m) && |m.nodes| < 8
    ensures var m', added := Added(m, position), Port(m.nextKey, 0);
      && (LiveOutput(m.nodes, other) ==>
            var wired := Connected(m', Link(other, added));
            WellFormed(wired) && wired == m'.(wires := m.wires[added := other]))
      && (LiveInput(m.nodes, other) ==>
            var wired := Connected(m', Link(added, other));
            WellFormed(wired) && wired == m'.(wires := m.wires[other := added]))
  {
    var m', added := Added(m, position), Port(m.nextKey, 0);
    AddedNode(m, position);
    AddKeepsWellFormed(m, position);
    assert m'.nodes == m.nodes + [m'.nodes[|m.nodes|]];
    LiveStays(m.nodes, m'.nodes[|m.nodes|], other);
    if LiveOutput(m.nodes, other) || LiveInput(m.nodes, other) {
      assert other.node != m.nextKey;
      hide WellFormed, Connected, Added, LiveInput, LiveOutput;
      if LiveOutput(m.nodes, other) {
        ConnectKeepsIffLive(m', Link(other, added));
        ConnectReplaces(m', Link(other, added));
      }
      if LiveInput(m.nodes, other) {
        ConnectKeepsIffLive(m', Link(added, other));
        ConnectReplaces(m', Link(added, other));
      }
    }
  }

  /** Removing the node just added gives the graph back, but for the key that has been used up. */
  lemma RemoveUndoesAdd(m: Model, position: Position)
    requires WellFormed(m) && |m.nodes| < 8
    ensures Removed(Added(m, position), m.nextKey) == m.(nextKey := m.nextKey + 1)
  {
    var nodes := Added(m, position).nodes;
    WithoutFirst(nodes, |m.nodes|, m.nextKey);
    assert nodes[..|m.nodes|] + nodes[|m.nodes| + 1..] == m.nodes;
    WiresAreOld(m);
    assert Unwired(m.wires, m.nextKey) == m.wires;
  }

  /** Removing a node takes its wires with it, and no others. */
  lemma RemoveTakesItsWires(m: Model, key: nat, dst: Port)
    ensures dst in Removed(m, key).wires <==> dst in m.wires && dst.node != key && m.wires[dst].node != key
    ensures dst in Removed(m, key).wires ==> Removed(m, key).wires[dst] == m.wires[dst]
  {
  }

  /** A link from a node to itself changes nothing, not even the wire that lands where it would. */
  lemma SelfLinkIsRefused(m: Model, l: Link)
    requires l.src.node == l.dst.node
    ensures Connected(m, l) == m
  {
  }

  /** A wire freed again leaves the graph as if its input had only been freed. */
  lemma DetachUndoesConnect(m: Model, l: Link)
    requires WellFormed(m) && l.src.node != l.dst.node
    ensures Detached(Connected(m, l), l.dst) == Detached(m, l.dst)
    ensures l.dst !in m.wires ==> Detached(Connected(m, l), l.dst) == m
  {
    ConnectReplaces(m, l);
    hide WellFormed, Connected;
    FreedAgain(m.wires, l);
  }

  lemma FreedAgain(wires: map<Port, Port>, l: Link)
    ensures wires[l.dst := l.src] - {l.dst} == wires - {l.dst}
    ensures l.dst !in wires ==> wires - {l.dst} == wires
  {
  }

  lemma EditKeepsWellFormed(m: Model, e: Edit)
    requires WellFormed(m) && Reported(m, e)
    ensures WellFormed(Edited(m, e))
  {
    match e
    case Reset => StartsWellFormed();
    case Connect(l) => ConnectKeepsIffLive(m, l);
    case Detach(dst) => FewerWires(m, m.wires - {dst});
    case Unwire(key) => FewerWires(m, Unwired(m.wires, key));
    case Remove(key) => RemoveKeepsWellFormed(m, key);
    case Add(position) => AddKeepsWellFormed(m, position);
  }

  lemma FewerWires(m: Model, wires: map<Port, Port>)
    requires WellFormed(m)
    requires forall dst | dst in wires :: dst in m.wires && wires[dst] == m.wires[dst]
    ensures WellFormed(m.(wires := wires))
  {
    forall dst | dst in wires ensures Sound(m.nodes, Link(wires[dst], dst)) {
      assert Sound(m.nodes, Link(m.wires[dst], dst));
    }
  }

  ghost predicate AllReported(edits: seq<Edit>) {
    forall i | 0 <= i < |edits| :: Reported(EditedAll(edits[..i]), edits[i])
  }

  lemma {:induction false} RunsStayWellFormed(edits: seq<Edit>)
    requires AllReported(edits)
    ensures WellFormed(EditedAll(edits))
  {
    if edits == [] {
      StartsWellFormed();
    } else {
      var before := edits[..|edits| - 1];
      assert forall i | 0 <= i < |before| :: before[..i] == edits[..i];
      RunsStayWellFormed(before);
      EditKeepsWellFormed(EditedAll(before), edits[|edits| - 1]);
    }
  }

  /**
   * In every state a run of edits reaches the edge table has room to spare, so a link between two nodes that exist is
   * never dropped: it replaces its input's wire, and the share of wired inputs stays within nought and one.
   */
  lemma ConnectNeverDropped(edits: seq<Edit>, l: Link)
    requires AllReported(edits)
    ensures var m := EditedAll(edits);
      && |m.wires| <= InputTotal(m.nodes) <= 9 < EDGES_MAX
      && (l.src.node != l.dst.node ==> Connected(m, l).wires == m.wires[l.dst := l.src])
      && 0.0 <= WiredShare(m) <= 1.0
  {
    RunsStayWellFormed(edits);
    var m := EditedAll(edits);
    WiresFit(m);
    if l.src.node != l.dst.node {
      ConnectReplaces(m, l);
    }
    if InputTotal(m.nodes) > 0 {
      ShareIsFraction(|m.wires| as real, InputTotal(m.nodes) as real);
    }
  }

  lemma ShareIsFraction(part: real, whole: real)
    requires 0.0 <= part <= whole && whole > 0.0
    ensures 0.0 <= part / whole <= 1.0
  {
    var share := part / whole;
    assert share * whole == part;
    assert (share - 1.0) * whole == share * whole - whole;
  }

  /** The progress bar's value: filled input ports over all of them. */
  function WiredShare(m: Model): real {
    if InputTotal(m.nodes) > 0 then |m.wires| as real / InputTotal(m.nodes) as real else 0.0
  }

  /** The total is how many input ports there are. */
  lemma {:induction false} InputTotalCountsPorts(nodes: seq<Node>)
    requires forall i, j | 0 <= i < j < |nodes| :: nodes[i].key != nodes[j].key
    ensures |Inputs(nodes)| == InputTotal(nodes)
  {
    if nodes != [] {
      InputTotalCountsPorts(nodes[1..]);
      var first, rest := PortsBelow(nodes[0].key, nodes[0].inputs), Inputs(nodes[1..]);
      forall p | p in first ensures p !in rest {
        assert forall i | 0 <= i < |nodes[1..]| :: nodes[1..][i] == nodes[i + 1];
      }
      assert first * rest == {};
    }
  }

  lemma PartOfWhole(part: real, whole: real)
    requires whole > 0.0
    ensures part / whole * whole == part
    ensures part / whole == 1.0 <==> part == whole
    ensures part / whole == 0.0 <==> part == 0.0
  {
  }

  /** The share is the number of wires over that of input ports. */
  lemma ShareIsPart(m: Model)
    requires InputTotal(m.nodes) > 0
    ensures WiredShare(m) == 1.0 <==> |m.wires| == InputTotal(m.nodes)
    ensures WiredShare(m) == 0.0 <==> |m.wires| == 0
    ensures WiredShare(m) * InputTotal(m.nodes) as real == |m.wires| as real
  {
    PartOfWhole(|m.wires| as real, InputTotal(m.nodes) as real);
  }

  lemma SameSize<T>(a: set<T>, b: set<T>)
    requires a <= b
    ensures |a| == |b| <==> b <= a
  {
    assert |b - a| == |b| - |a|;
    if b <= a {
      assert a == b;
    }
    if |a| == |b| {
      assert b - a == {};
    }
  }

  /** The bar is full exactly when every input port there is has its wire, and empty exactly when there is no wire. */
  lemma ShareCountsInputs(m: Model)
    requires WellFormed(m) && InputTotal(m.nodes) > 0
    ensures WiredShare(m) == 1.0 <==> forall p | LiveInput(m.nodes, p) :: p in m.wires
    ensures WiredShare(m) == 0.0 <==> m.wires == map[]
  {
    var ports, wired := Inputs(m.nodes), m.wires.Keys;
    InputTotalCountsPorts(m.nodes);
    forall dst | dst in wired ensures dst in ports {
      assert Sound(m.nodes, Link(m.wires[dst], dst));
    }
    assert |m.wires| == |wired|;
    ShareIsPart(m);
    hide *;
    SameSize(wired, ports);
    assert m.wires == map[] <==> |wired| == 0;
  }

  /** The starting compositor's output ports are those its five wires come from. */
  lemma OpensUsingEveryOutput(p: Port)
    ensures LiveOutput(Starting().nodes, p) <==> exists i | 0 <= i < |STARTING_LINKS| :: STARTING_LINKS[i].src == p
  {
    var nodes, links := STARTING_NODES, STARTING_LINKS;
    if LiveOutput(nodes, p) {
      var i :| 0 <= i < |nodes| && nodes[i].key == p.node && p.port < nodes[i].outputs;
      assert links[if i == 0 then p.port else i + 1].src == p;
    }
    if i :| 0 <= i < |links| && links[i].src == p {
      assert nodes[if i <= 1 then 0 else i - 1].key == p.node;
    }
  }

  /** The starting compositor has five inputs, and each of them is wired. */
  lemma OpensFullyWired()
    ensures InputTotal(Starting().nodes) == |Starting().wires| == 5 && WiredShare(Starting()) == 1.0
  {
    StartingLinksWire();
    OneEntryPerLink(STARTING_LINKS);
    var nodes := STARTING_NODES;
    assert InputTotal(nodes[5..]) == 0;
    assert InputTotal(nodes[4..]) == 1 by { assert nodes[4..][1..] == nodes[5..]; }
    assert InputTotal(nodes[3..]) == 3 by { assert nodes[3..][1..] == nodes[4..]; }
    assert InputTotal(nodes[2..]) == 4 by { assert nodes[2..][1..] == nodes[3..]; }
    assert InputTotal(nodes[1..]) == 5 by { assert nodes[1..][1..] == nodes[2..]; }
    assert InputTotal(nodes) == 5;
  }

  /** No node of the graph has the key. */
  ghost predicate Unused(m: Model, key: nat) {
    forall i | 0 <= i < |m.nodes| :: m.nodes[i].key != key
  }

  lemma EditReusesNoKey(m: Model, e: Edit, key: nat)
    requires key < m.nextKey && Unused(m, key) && !e.Reset?
    ensures Edited(m, e).nextKey >= m.nextKey && Unused(Edited(m, e), key)
  {
    if e.Remove? {
      WithoutOnlyDrops(m.nodes, e.key);
    }
  }

  /** A key that has been given out and removed is never given out again, so a stale link cannot reach a new node. */
  lemma {:induction false} KeysAreNeverReused(m: Model, edits: seq<Edit>, key: nat)
    requires key < m.nextKey && Unused(m, key) && Reset !in edits
    ensures EditedFrom(m, edits).nextKey >= m.nextKey && Unused(EditedFrom(m, edits), key)
  {
    if edits != [] {
      hide Edited, Unused;
      var before, last := edits[..|edits| - 1], edits[|edits| - 1];
      assert last in edits;
      KeysAreNeverReused(m, before, key);
      EditReusesNoKey(EditedFrom(m, before), last, key);
    }
  }

  lemma WithoutOnlyDrops(nodes: seq<Node>, key: nat)
    ensures forall n :: n in Without(nodes, key) ==> n in nodes
    ensures forall i | 0 <= i < |Without(nodes, key)| :: Without(nodes, key)[i] in nodes
  {
    if nodes != [] {
      WithoutOnlyDrops(nodes[1..], key);
      assert nodes == [nodes[0]] + nodes[1..];
    }
  }
}
