/** Workflow definitions: nodes, edges, structural validation, status transitions. */
module Workflows {
  import opened Values

  datatype NodeType = Trigger | Executor | Conditional | Action | Unlisted(name: string)

  datatype Node = Node(id: string, kind: NodeType, name: Option<string>, data: Object) {
    predicate IsWebhook() {
      kind.Trigger? && StringField(data, "triggerType") == "webhook"
    }

    function ProviderConfigId(): string {
      if kind.Executor? then StringField(data, "providerConfigId") else ""
    }

    function Condition(): string {
      if kind.Conditional? then StringField(data, "condition") else ""
    }
  }

  datatype Edge = Edge(id: string, source: string, target: string, sourceHandle: Option<string>)

  datatype Status = Draft | Active | Inactive

  datatype Problem =
    | NameRequired | NameTooLong | NodesRequired | TooManyNodes | TooManyEdges | InvalidEdgeRef | NoTrigger
    | CannotActivate | CannotDeactivate | CannotUpdate | CannotMoveToDraft

  const MAX_NAME_LENGTH := 100
  const MAX_NODES := 100
  const MAX_EDGES := 200

  // ---------- validation ----------

  /** The length of the UTF-8 encoding: Go measures a name in bytes. */
  function Utf8Length(s: string): nat {
    if s == "" then 0
    else
      (if s[0] < '\U{80}' then 1 else if s[0] < '\U{800}' then 2 else if s[0] < '\U{10000}' then 3 else 4)
      + Utf8Length(s[1..])
  }

  ghost function NodeIds(nodes: seq<Node>): set<string> {
    set i | 0 <= i < |nodes| :: nodes[i].id
  }

  ghost predicate EdgesResolve(nodes: seq<Node>, edges: seq<Edge>) {
    forall i :: 0 <= i < |edges| ==> edges[i].source in NodeIds(nodes) && edges[i].target in NodeIds(nodes)
  }

  ghost predicate HasTrigger(nodes: seq<Node>) {
    exists i :: 0 <= i < |nodes| && nodes[i].kind.Trigger?
  }

  predicate NameFits(name: string) {
    name != "" && Utf8Length(name) <= MAX_NAME_LENGTH
  }

  ghost predicate WellSized(name: string, nodes: seq<Node>, edges: seq<Edge>) {
    NameFits(name) && |nodes| <= MAX_NODES && |edges| <= MAX_EDGES
  }

  /** What a workflow must satisfy to be activated. */
  ghost predicate WellStructured(name: string, nodes: seq<Node>, edges: seq<Edge>) {
    WellSized(name, nodes, edges) && HasTrigger(nodes) && EdgesResolve(nodes, edges)
  }

  method CollectNodeIds(nodes: seq<Node>) returns (ids: set<string>, hasTrigger: bool)
    ensures ids == NodeIds(nodes) && hasTrigger == HasTrigger(nodes)
  {
    ids, hasTrigger := {}, false;
    for i := 0 to |nodes|
      invariant ids == NodeIds(nodes[..i])
      invariant hasTrigger == HasTrigger(nodes[..i])
    {
      assert nodes[..i + 1] == nodes[..i] + [nodes[i]];
      assert NodeIds(nodes[..i + 1]) == NodeIds(nodes[..i]) + {nodes[i].id} by {
        assert nodes[..i + 1][i] == nodes[i];
        forall k | 0 <= k < i ensures nodes[..i + 1][k] == nodes[..i][k] {}
      }
      ids := ids + {nodes[i].id};
      if nodes[i].kind.Trigger? {
        hasTrigger := true;
        assert nodes[..i + 1][i].kind.Trigger?;
      } else if HasTrigger(nodes[..i]) {
        var k :| 0 <= k < i && nodes[..i][k].kind.Trigger?;
        assert nodes[..i + 1][k].kind.Trigger?;
      }
    }
    assert nodes[..|nodes|] == nodes;
  }

  method CheckEdges(ids: set<string>, edges: seq<Edge>) returns (ok: bool)
    ensures ok <==> forall i :: 0 <= i < |edges| ==> edges[i].source in ids && edges[i].target in ids
  {
    for i := 0 to |edges|
      invariant forall k :: 0 <= k < i ==> edges[k].source in ids && edges[k].target in ids
    {
      if edges[i].source !in ids || edges[i].target !in ids {
        return false;
      }
    }
    return true;
  }

  method ValidateWorkflowDataForDraft(name: string, nodes: seq<Node>, edges: seq<Edge>)
    returns (problem: Option<Problem>)
    ensures problem.None? <==> WellSized(name, nodes, edges) && EdgesResolve(nodes, edges)
    ensures problem == Some(NameRequired) <==> name == ""
    ensures problem == Some(NameTooLong) <==> Utf8Length(name) > 100
    ensures problem == Some(TooManyNodes) <==> NameFits(name) && |nodes| > 100
    ensures problem == Some(TooManyEdges) <==> NameFits(name) && |nodes| <= 100 && |edges| > 200
    ensures problem == Some(InvalidEdgeRef) <==>
            WellSized(name, nodes, edges) && !EdgesResolve(nodes, edges)
  {
    if name == "" { return Some(NameRequired); }
    if Utf8Length(name) > MAX_NAME_LENGTH { return Some(NameTooLong); }
    if |nodes| > MAX_NODES { return Some(TooManyNodes); }
    if |edges| > MAX_EDGES { return Some(TooManyEdges); }
    if |edges| > 0 {
      var ids, _ := CollectNodeIds(nodes);
      var ok := CheckEdges(ids, edges);
      if !ok { return Some(InvalidEdgeRef); }
    }
    return None;
  }

  method ValidateWorkflowStructure(name: string, nodes: seq<Node>, edges: seq<Edge>)
    returns (problem: Option<Problem>)
    ensures problem.None? <==> WellStructured(name, nodes, edges)
    ensures problem == Some(NameRequired) <==> name == ""
    ensures problem == Some(NameTooLong) <==> Utf8Length(name) > 100
    ensures problem == Some(NodesRequired) <==> NameFits(name) && nodes == []
    ensures problem == Some(TooManyNodes) <==> NameFits(name) && |nodes| > 100
    ensures problem == Some(TooManyEdges) <==>
            NameFits(name) && nodes != [] && |nodes| <= 100 && |edges| > 200
    ensures problem == Some(NoTrigger) <==>
            WellSized(name, nodes, edges) && nodes != [] && !HasTrigger(nodes)
    ensures problem == Some(InvalidEdgeRef) <==>
            WellSized(name, nodes, edges) && HasTrigger(nodes) && !EdgesResolve(nodes, edges)
  {
    if name == "" { return Some(NameRequired); }
    if Utf8Length(name) > MAX_NAME_LENGTH { return Some(NameTooLong); }
    if |nodes| == 0 { return Some(NodesRequired); }
    if |nodes| > MAX_NODES { return Some(TooManyNodes); }
    if |edges| > MAX_EDGES { return Some(TooManyEdges); }
    var ids, hasTrigger := CollectNodeIds(nodes);
    if !hasTrigger { return Some(NoTrigger); }
    var ok := CheckEdges(ids, edges);
    if !ok { return Some(InvalidEdgeRef); }
    return None;
  }

  // ---------- the workflow record ----------

  /** The value of a workflow, as it is stored. */
  datatype Definition = Definition(
    id: int,
    name: string,
    description: Option<string>,
    status: Status,
    nodes: seq<Node>,
    edges: seq<Edge>,
    metadata: Object)
  {
    ghost predicate Structured() {
      WellStructured(name, nodes, edges)
    }
  }

  class Workflow {
    const id: int
    var name: string
    var description: Option<string>
    var status: Status
    var nodes: seq<Node>
    var edges: seq<Edge>
    var metadata: Object

    function Value(): Definition
      reads this
    {
      Definition(id, name, description, status, nodes, edges, metadata)
    }

    constructor FromValue(d: Definition)
      ensures Value() == d
    {
      id, name, description, status := d.id, d.name, d.description, d.status;
      nodes, edges, metadata := d.nodes, d.edges, d.metadata;
    }

    method Activate() returns (problem: Option<Problem>)
      modifies this
      ensures problem.None? <==> old(status).Draft?
      ensures Value() == if problem.None? then old(Value()).(status := Active) else old(Value())
    {
      if !status.Draft? { return Some(CannotActivate); }
      status := Active;
      return None;
    }

    method Deactivate() returns (problem: Option<Problem>)
      modifies this
      ensures problem.None? <==> old(status).Active?
      ensures Value() == if problem.None? then old(Value()).(status := Inactive) else old(Value())
    {
      if !status.Active? { return Some(CannotDeactivate); }
      status := Inactive;
      return None;
    }

    method MoveToDraft() returns (problem: Option<Problem>)
      modifies this
      ensures problem.None? <==> old(status).Inactive?
      ensures Value() == if problem.None? then old(Value()).(status := Draft) else old(Value())
    {
      if !status.Inactive? { return Some(CannotMoveToDraft); }
      status := Draft;
      return None;
    }

    method Update(newName: string, newDescription: Option<string>, newNodes: seq<Node>, newEdges: seq<Edge>)
      returns (problem: Option<Problem>)
      modifies this
      ensures problem.None? <==>
              old(status).Draft? && WellSized(newName, newNodes, newEdges) && EdgesResolve(newNodes, newEdges)
      ensures Value() == if problem.None?
              then old(Value()).(name := newName, description := newDescription,
                                 nodes := newNodes, edges := newEdges)
              else old(Value())
    {
      if !status.Draft? { return Some(CannotUpdate); }
      problem := ValidateWorkflowDataForDraft(newName, newNodes, newEdges);
      if problem.Some? { return; }
      name, description, nodes, edges := newName, newDescription, newNodes, newEdges;
    }

    method SetMetadata(key: string, value: Value)
      modifies this
      ensures Value() == old(Value()).(metadata := old(metadata)[key := value])
    {
      metadata := metadata[key := value];
    }

    method Clone(newId: int, newName: string) returns (copy: Workflow?, problem: Option<Problem>)
      ensures copy != null <==> problem.None?
      ensures problem.None? <==> WellSized(newName, nodes, edges) && EdgesResolve(nodes, edges)
      ensures copy != null ==>
                fresh(copy) && copy.Value() == Definition(newId, newName, description, Draft, nodes, edges, map[])
    {
      problem := ValidateWorkflowDataForDraft(newName, nodes, edges);
      if problem.Some? { return null, problem; }
      copy := new Workflow.FromValue(Definition(newId, newName, description, Draft, nodes, edges, map[]));
    }
  }

  // ---------- the graph ----------

  /** The outgoing edges of a node, in definition order. */
  function OutEdges(edges: seq<Edge>, source: string): (r: seq<Edge>)
    ensures forall e :: e in r <==> e in edges && e.source == source
  {
    if edges == [] then []
    else
      var last := edges[|edges| - 1];
      OutEdges(edges[..|edges| - 1], source) + (if last.source == source then [last] else [])
  }

  /** The node known under an id: the last one, when ids repeat. */
  function NodeMap(nodes: seq<Node>): (r: map<string, Node>)
    ensures r.Keys == NodeIds(nodes)
    ensures forall k :: k in r ==> r[k].id == k && r[k] in nodes
  {
    if nodes == [] then map[]
    else
      var n := |nodes| - 1;
      assert NodeIds(nodes) == NodeIds(nodes[..n]) + {nodes[n].id} by {
        assert forall k :: 0 <= k < n ==> nodes[..n][k] == nodes[k];
      }
      NodeMap(nodes[..n])[nodes[n].id := nodes[n]]
  }

  function FirstTrigger(nodes: seq<Node>): string {
    if nodes == [] then "" else if nodes[0].kind.Trigger? then nodes[0].id else FirstTrigger(nodes[1..])
  }

  /** The number of nodes that are not triggers. */
  function Executable(nodes: seq<Node>): nat {
    if nodes == [] then 0
    else Executable(nodes[..|nodes| - 1]) + (if nodes[|nodes| - 1].kind.Trigger? then 0 else 1)
  }

  type Graph = map<string, seq<Edge>>

  /** Looking up a missing source yields no edges, as with a Go map. */
  function EdgesOf(graph: Graph, source: string): seq<Edge> {
    if source in graph then graph[source] else []
  }

  method BuildGraph(edges: seq<Edge>) returns (graph: Graph)
    ensures forall s :: EdgesOf(graph, s) == OutEdges(edges, s)
  {
    graph := map[];
    for i := 0 to |edges|
      invariant forall s :: EdgesOf(graph, s) == OutEdges(edges[..i], s)
    {
      assert edges[..i + 1][..i] == edges[..i];
      graph := graph[edges[i].source := EdgesOf(graph, edges[i].source) + [edges[i]]];
    }
    assert edges[..|edges|] == edges;
  }

  method BuildNodeMap(nodes: seq<Node>) returns (m: map<string, Node>)
    ensures m == NodeMap(nodes)
  {
    m := map[];
    for i := 0 to |nodes|
      invariant m == NodeMap(nodes[..i])
    {
      assert nodes[..i + 1][..i] == nodes[..i];
      m := m[nodes[i].id := nodes[i]];
    }
    assert nodes[..|nodes|] == nodes;
  }

  method FindTriggerNode(nodes: seq<Node>) returns (id: string)
    ensures id == FirstTrigger(nodes)
  {
    for i := 0 to |nodes|
      invariant FirstTrigger(nodes) == FirstTrigger(nodes[i..])
    {
      if nodes[i].kind.Trigger? {
        return nodes[i].id;
      }
      assert nodes[i..][1..] == nodes[i + 1..];
    }
    return "";
  }

  method CountExecutableNodes(nodes: seq<Node>) returns (count: nat)
    ensures count == Executable(nodes)
  {
    count := 0;
    for i := 0 to |nodes|
      invariant count == Executable(nodes[..i])
    {
      assert nodes[..i + 1][..i] == nodes[..i];
      if !nodes[i].kind.Trigger? {
        count := count + 1;
      }
    }
    assert nodes[..|nodes|] == nodes;
  }

  /** The node at place i is the first trigger. */
  predicate FirstTriggerAt(nodes: seq<Node>, i: int) {
    0 <= i < |nodes| && nodes[i].kind.Trigger? && forall j :: 0 <= j < i ==> !nodes[j].kind.Trigger?
  }

  /** Of several nodes with one id, the last is the one that is known. */
  lemma {:induction false} LastNodeWins(nodes: seq<Node>, i: nat)
    requires i < |nodes| && forall j :: i < j < |nodes| ==> nodes[j].id != nodes[i].id
    ensures NodeMap(nodes)[nodes[i].id] == nodes[i]
    decreases |nodes|
  {
    var n := |nodes| - 1;
    if i == n {
    } else {
      LastNodeWins(nodes[..n], i);
    }
  }

  /** The length of a name in bytes: one for each ASCII character, up to four for any other. */
  lemma {:induction false} Utf8Lengths(s: string)
    ensures |s| <= Utf8Length(s) <= 4 * |s|
    ensures (forall i :: 0 <= i < |s| ==> s[i] as int < 128) <==> Utf8Length(s) == |s|
    decreases |s|
  {
    if s == "" {
    } else {
      Utf8Lengths(s[1..]);
      assert (forall i :: 0 <= i < |s| ==> s[i] as int < 128) <==>
             (s[0] as int < 128 && forall i :: 0 <= i < |s[1..]| ==> s[1..][i] as int < 128) by {
        assert forall i :: 0 < i < |s| ==> s[i] == s[1..][i - 1];
      }
    }
  }

  /** The trigger that starts a run is the first trigger node of the workflow; none is found exactly when
      there is none or the first one has an empty id. */
  lemma {:induction false} FirstTriggerFound(nodes: seq<Node>)
    ensures FirstTrigger(nodes) != "" ==> FirstTrigger(nodes) in NodeIds(nodes)
    ensures FirstTrigger(nodes) != "" ==> HasTrigger(nodes)
    ensures (forall i :: 0 <= i < |nodes| && nodes[i].kind.Trigger? ==> nodes[i].id != "")
            ==> (FirstTrigger(nodes) == "" <==> !HasTrigger(nodes))
    ensures forall i :: FirstTriggerAt(nodes, i) ==> FirstTrigger(nodes) == nodes[i].id
    ensures !HasTrigger(nodes) ==> FirstTrigger(nodes) == ""
    decreases |nodes|
  {
    if nodes == [] {
    } else if nodes[0].kind.Trigger? {
      assert HasTrigger(nodes);
    } else {
      var rest := nodes[1..];
      FirstTriggerFound(rest);
      assert forall i :: 0 <= i < |rest| ==> rest[i] == nodes[i + 1];
      forall i | FirstTriggerAt(nodes, i) ensures FirstTrigger(nodes) == nodes[i].id {
        assert FirstTriggerAt(rest, i - 1);
      }
      if HasTrigger(nodes) {
        var i :| 0 <= i < |nodes| && nodes[i].kind.Trigger?;
        assert rest[i - 1].kind.Trigger?;
      }
    }
  }
}
