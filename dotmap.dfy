/**
 * The diagram editor of a dot map: nodes placed on a canvas, edges drawn
 * between them in connect mode, nodes removed with their edges in delete
 * mode, and a node dialog that creates or edits a node.
 *
 * Edge insertion follows the `addEdge` helper of the flow library the
 * editor uses (version 11): an edge needs both ends, and a second edge
 * between the same two nodes is refused.
 */
module DotMap {
  import opened Wrappers
  import opened Text

  datatype Position = Position(x: real, y: real)

  /** What a node shows; `opensArticle` is whether it carries an article-click handler. */
  datatype NodeData = NodeData(title: string, content: string, kind: string, opensArticle: bool)

  datatype Node = Node(id: string, position: Position, data: NodeData)

  datatype Edge = Edge(id: string, source: string, target: string)

  /** `selectedNode`: nothing, a clicked node, or the `{ position }` placeholder of a background click. */
  datatype Selected = NoSelection | NodeSelected(node: Node) | PositionPicked(position: Position)

  /** The selection's `id`; the placeholder has none. */
  function SelectedId(s: Selected): Option<string> {
    if s.NodeSelected? then Some(s.node.id) else None
  }

  /** The selection's `position`: both a node and the placeholder have one. */
  function SelectedPosition(s: Selected): Option<Position> {
    match s
    case NoSelection => None
    case NodeSelected(n) => Some(n.position)
    case PositionPicked(p) => Some(p)
  }

  function EdgeId(source: string, target: string): string {
    "e" + source + "-" + target
  }

  predicate Connected(edges: seq<Edge>, source: string, target: string) {
    exists i :: 0 <= i < |edges| && edges[i].source == source && edges[i].target == target
  }

  /** `addEdge`: refused without both ends or when the two nodes are already connected; else appended. */
  function AddEdge(e: Edge, edges: seq<Edge>): seq<Edge> {
    if e.source == [] || e.target == [] || Connected(edges, e.source, e.target) then edges else edges + [e]
  }

  /** No two edges join the same source to the same target. */
  predicate UniqueConnections(edges: seq<Edge>) {
    forall i, j :: 0 <= i < j < |edges| ==> !(edges[i].source == edges[j].source && edges[i].target == edges[j].target)
  }

  predicate HasNode(nodes: seq<Node>, id: string) {
    exists i :: 0 <= i < |nodes| && nodes[i].id == id
  }

  /** Every edge joins two nodes of the map. */
  predicate EndpointsExist(nodes: seq<Node>, edges: seq<Edge>) {
    forall i :: 0 <= i < |edges| ==> HasNode(nodes, edges[i].source) && HasNode(nodes, edges[i].target)
  }

  /** `nodes.filter(n => n.id !== id)`. */
  function WithoutNode(nodes: seq<Node>, id: string): (r: seq<Node>)
    ensures |r| <= |nodes|
  {
    if nodes == [] then []
    else (if nodes[0].id != id then [nodes[0]] else []) + WithoutNode(nodes[1..], id)
  }

  /** `edges.filter(e => e.source !== id && e.target !== id)`. */
  function WithoutIncident(edges: seq<Edge>, id: string): (r: seq<Edge>)
    ensures |r| <= |edges|
  {
    if edges == [] then []
    else (if edges[0].source != id && edges[0].target != id then [edges[0]] else []) + WithoutIncident(edges[1..], id)
  }

  /** The node map of `updateNode`: the nodes with the selected id get the form's data. */
  function UpdatedNodes(nodes: seq<Node>, id: Option<string>, data: NodeData): (r: seq<Node>)
    ensures |r| == |nodes|
    ensures forall i :: 0 <= i < |r| ==>
              r[i] == if id == Some(nodes[i].id) then nodes[i].(data := data) else nodes[i]
  {
    seq(|nodes|, i requires 0 <= i < |nodes| => if id == Some(nodes[i].id) then nodes[i].(data := data) else nodes[i])
  }

  datatype Mode = AddMode | ConnectMode | DeleteMode

  datatype Flags = Flags(adding: bool, connecting: bool, deleting: bool)

  /** A toggle flips its own flag and turns the other two off. */
  function Toggled(m: Mode, f: Flags): Flags {
    match m
    case AddMode => Flags(!f.adding, false, false)
    case ConnectMode => Flags(false, !f.connecting, false)
    case DeleteMode => Flags(false, false, !f.deleting)
  }

  predicate AtMostOneMode(f: Flags) {
    !(f.adding && f.connecting) && !(f.adding && f.deleting) && !(f.connecting && f.deleting)
  }

  function IsOn(m: Mode, f: Flags): bool {
    match m
    case AddMode => f.adding
    case ConnectMode => f.connecting
    case DeleteMode => f.deleting
  }

  // ---------------------------------------------------------------------
  // Properties of the operations
  // ---------------------------------------------------------------------

  lemma {:induction false} WithoutNodeMembers(nodes: seq<Node>, id: string)
    ensures forall n :: n in WithoutNode(nodes, id) <==> n in nodes && n.id != id
    decreases |nodes|
  {
    if nodes != [] {
      WithoutNodeMembers(nodes[1..], id);
      assert nodes == [nodes[0]] + nodes[1..];
    }
  }

  lemma {:induction false} WithoutIncidentMembers(edges: seq<Edge>, id: string)
    ensures forall e :: e in WithoutIncident(edges, id) <==> e in edges && e.source != id && e.target != id
    decreases |edges|
  {
    if edges != [] {
      WithoutIncidentMembers(edges[1..], id);
      assert edges == [edges[0]] + edges[1..];
    }
  }

  /** A kept node is a node of the map whose id is not the removed one. */
  lemma HasNodeWithout(nodes: seq<Node>, id: string, other: string)
    requires other != id
    ensures HasNode(WithoutNode(nodes, id), other) <==> HasNode(nodes, other)
  {
    WithoutNodeMembers(nodes, id);
    var r := WithoutNode(nodes, id);
    if HasNode(nodes, other) {
      var i :| 0 <= i < |nodes| && nodes[i].id == other;
      assert nodes[i] in r;
      var j :| 0 <= j < |r| && r[j] == nodes[i];
    }
    if HasNode(r, other) {
      var j :| 0 <= j < |r| && r[j].id == other;
      assert r[j] in nodes;
      var i :| 0 <= i < |nodes| && nodes[i] == r[j];
    }
  }

  /** Removing edges keeps the rest free of duplicate connections. */
  lemma {:induction false} WithoutIncidentUnique(edges: seq<Edge>, id: string)
    requires UniqueConnections(edges)
    ensures UniqueConnections(WithoutIncident(edges, id))
    decreases |edges|
  {
    if edges != [] {
      WithoutIncidentUnique(edges[1..], id);
      WithoutIncidentMembers(edges[1..], id);
      var rest := WithoutIncident(edges[1..], id);
      var r := WithoutIncident(edges, id);
      if edges[0].source != id && edges[0].target != id {
        assert r == [edges[0]] + rest;
        forall j | 0 < j < |r| ensures !(r[0].source == r[j].source && r[0].target == r[j].target) {
          assert r[j] in rest;
          var k :| 0 <= k < |edges[1..]| && edges[1..][k] == r[j];
          assert edges[k + 1] == r[j];
        }
      } else {
        assert r == rest;
      }
    }
  }

  /**
   * Deleting a node removes it and every edge that touches it and keeps
   * everything else; a map whose edges join its nodes keeps that property.
   */
  lemma DeleteCascades(nodes: seq<Node>, edges: seq<Edge>, id: string)
    ensures forall n :: n in WithoutNode(nodes, id) <==> n in nodes && n.id != id
    ensures forall e :: e in WithoutIncident(edges, id) <==> e in edges && e.source != id && e.target != id
    ensures EndpointsExist(nodes, edges) ==> EndpointsExist(WithoutNode(nodes, id), WithoutIncident(edges, id))
    ensures UniqueConnections(edges) ==> UniqueConnections(WithoutIncident(edges, id))
  {
    WithoutNodeMembers(nodes, id);
    WithoutIncidentMembers(edges, id);
    var es := WithoutIncident(edges, id);
    if EndpointsExist(nodes, edges) {
      forall i | 0 <= i < |es|
        ensures HasNode(WithoutNode(nodes, id), es[i].source) && HasNode(WithoutNode(nodes, id), es[i].target)
      {
        assert es[i] in edges;
        var k :| 0 <= k < |edges| && edges[k] == es[i];
        HasNodeWithout(nodes, id, es[i].source);
        HasNodeWithout(nodes, id, es[i].target);
      }
    }
    if UniqueConnections(edges) { WithoutIncidentUnique(edges, id); }
  }

  /**
   * `addEdge` appends exactly the new edge when both ends are given and the
   * two are not yet connected, and otherwise changes nothing; either way the
   * two are connected afterwards when both ends are given, and no connection
   * is duplicated.
   */
  lemma AddEdgeConnects(e: Edge, edges: seq<Edge>)
    ensures var r := AddEdge(e, edges);
            (r == edges + [e] <==> e.source != [] && e.target != [] && !Connected(edges, e.source, e.target))
            && (r != edges + [e] ==> r == edges)
            && (e.source != [] && e.target != [] ==> Connected(r, e.source, e.target))
            && (UniqueConnections(edges) ==> UniqueConnections(r))
  {
    var r := AddEdge(e, edges);
    assert |edges + [e]| != |edges|;
    if r == edges + [e] {
      assert r[|edges|] == e;
      assert UniqueConnections(edges) ==> UniqueConnections(r) by {
        if UniqueConnections(edges) {
          forall i, j | 0 <= i < j < |r| ensures !(r[i].source == r[j].source && r[i].target == r[j].target) {
            if j == |edges| { assert r[i] == edges[i]; }
          }
        }
      }
    }
  }

  /** An added edge joins two nodes of the map, so edges keep joining nodes. */
  lemma AddEdgeKeepsEndpoints(nodes: seq<Node>, e: Edge, edges: seq<Edge>)
    requires EndpointsExist(nodes, edges) && HasNode(nodes, e.source) && HasNode(nodes, e.target)
    ensures EndpointsExist(nodes, AddEdge(e, edges))
  {
    var r := AddEdge(e, edges);
    if r != edges {
      assert forall i :: 0 <= i < |edges| ==> r[i] == edges[i];
      assert r[|edges|] == e;
    }
  }

  /** `updateNode` changes only the data of the nodes with the selected id; the count and the ids stay. */
  lemma UpdateChangesOnlySelected(nodes: seq<Node>, id: Option<string>, data: NodeData)
    ensures var r := UpdatedNodes(nodes, id, data);
            |r| == |nodes|
            && (forall i :: 0 <= i < |r| ==> r[i].id == nodes[i].id && r[i].position == nodes[i].position)
            && (forall i :: 0 <= i < |r| && id != Some(nodes[i].id) ==> r[i] == nodes[i])
            && (forall i :: 0 <= i < |r| && id == Some(nodes[i].id) ==> r[i].data == data)
            && (id.None? ==> r == nodes)
  {}

  /** After any toggle at most one mode is on: the toggled one flips and the other two are off. */
  lemma ToggleLeavesOneMode(m: Mode, f: Flags)
    ensures AtMostOneMode(Toggled(m, f))
    ensures IsOn(m, Toggled(m, f)) == !IsOn(m, f)
    ensures forall o :: o != m ==> !IsOn(o, Toggled(m, f))
  {}

  /** Pressing the same toggle twice turns every mode off when that mode was off, and restores it when on. */
  lemma ToggleTwice(m: Mode, f: Flags)
    ensures IsOn(m, Toggled(m, Toggled(m, f))) == IsOn(m, f)
    ensures forall o :: o != m ==> !IsOn(o, Toggled(m, Toggled(m, f)))
  {}

  // ---------------------------------------------------------------------
  // The editor state
  // ---------------------------------------------------------------------

  class Editor {
    var nodes: seq<Node>
    var edges: seq<Edge>
    var adding: bool
    var connecting: bool
    var deleting: bool
    var selected: Selected
    var dialogOpen: bool
    var detailsOpen: bool
    var formTitle: string
    var formContent: string
    var formKind: string

    function Modes(): Flags
      reads this
    {
      Flags(adding, connecting, deleting)
    }

    /**
     * What the handlers keep: at most one mode on, no selection in delete
     * mode, edges joining nodes of the map without duplicate connections,
     * and in connect mode a selection that is a node of the map.
     */
    predicate Valid()
      reads this
    {
      AtMostOneMode(Modes())
      && (deleting ==> selected == NoSelection)
      && EndpointsExist(nodes, edges) && UniqueConnections(edges)
      && (connecting ==> !selected.PositionPicked?)
      && (connecting && selected.NodeSelected? ==> HasNode(nodes, selected.node.id))
    }

    constructor()
      ensures Valid()
      ensures nodes == [] && edges == [] && Modes() == Flags(false, false, false)
      ensures selected == NoSelection && !dialogOpen && !detailsOpen
      ensures formTitle == [] && formContent == [] && formKind == "note"
    {
      nodes := [];
      edges := [];
      adding, connecting, deleting := false, false, false;
      selected := NoSelection;
      dialogOpen, detailsOpen := false, false;
      formTitle, formContent, formKind := [], [], "note";
    }

    /** The effect of selecting a node: the form shows its data, the type defaulting to `note`. */
    method SelectNode(n: Node)
      modifies this
      ensures selected == NodeSelected(n)
      ensures formTitle == n.data.title && formContent == n.data.content
      ensures formKind == if n.data.kind != [] then n.data.kind else "note"
      ensures nodes == old(nodes) && edges == old(edges) && Modes() == old(Modes())
      ensures dialogOpen == old(dialogOpen) && detailsOpen == old(detailsOpen)
    {
      selected := NodeSelected(n);
      formTitle := n.data.title;
      formContent := n.data.content;
      formKind := if n.data.kind != [] then n.data.kind else "note";
    }

    /** `onNodeClick`: delete in delete mode, two-click connect in connect mode, else show the node. */
    method NodeClick(node: Node)
      requires Valid() && node in nodes
      modifies this
      ensures Valid()
      ensures Modes() == old(Modes()) && dialogOpen == old(dialogOpen)
      ensures old(deleting) ==>
                nodes == WithoutNode(old(nodes), node.id) && edges == WithoutIncident(old(edges), node.id)
                && selected == old(selected) && detailsOpen == old(detailsOpen)
      ensures !old(deleting) ==> nodes == old(nodes)
      ensures !old(deleting) && old(connecting) && old(selected) == NoSelection ==>
                edges == old(edges) && selected == NodeSelected(node)
      ensures !old(deleting) && old(connecting) && old(selected).NodeSelected? && old(selected).node.id != node.id ==>
                selected == NoSelection
                && edges == AddEdge(Edge(EdgeId(old(selected).node.id, node.id), old(selected).node.id, node.id), old(edges))
      ensures !old(deleting) && old(connecting) && SelectedId(old(selected)) == Some(node.id) ==>
                edges == old(edges) && selected == old(selected)
      ensures !old(deleting) && !old(connecting) ==> edges == old(edges) && selected == NodeSelected(node) && detailsOpen
      ensures old(connecting) ==> detailsOpen == old(detailsOpen)
      ensures !old(deleting) && (!old(connecting) || old(selected) == NoSelection) ==>
                formTitle == node.data.title && formContent == node.data.content
                && formKind == if node.data.kind != [] then node.data.kind else "note"
      ensures old(deleting) || (old(connecting) && old(selected) != NoSelection) ==>
                formTitle == old(formTitle) && formContent == old(formContent) && formKind == old(formKind)
    {
      if deleting {
        DeleteCascades(nodes, edges, node.id);
        nodes := WithoutNode(nodes, node.id);
        edges := WithoutIncident(edges, node.id);
      } else if connecting {
        if selected == NoSelection {
          SelectNode(node);
          assert HasNode(nodes, node.id) by {
            var i :| 0 <= i < |nodes| && nodes[i] == node;
          }
        } else if SelectedId(selected) != Some(node.id) {
          // In connect mode the selection is always a node of the map.
          var source := selected.node.id;
          var newEdge := Edge(EdgeId(source, node.id), source, node.id);
          assert HasNode(nodes, node.id) by {
            var i :| 0 <= i < |nodes| && nodes[i] == node;
          }
          AddEdgeConnects(newEdge, edges);
          AddEdgeKeepsEndpoints(nodes, newEdge, edges);
          edges := AddEdge(newEdge, edges);
          selected := NoSelection;
        }
      } else {
        SelectNode(node);
        detailsOpen := true;
      }
    }

    /** `onPaneClick`: in add mode open the node dialog at the point; in connect mode drop the selection. */
    method PaneClick(flowPosition: Option<Position>)
      requires Valid()
      modifies this
      ensures Valid()
      ensures nodes == old(nodes) && edges == old(edges) && Modes() == old(Modes()) && detailsOpen == old(detailsOpen)
      ensures old(adding) && flowPosition.Some? ==>
                selected == PositionPicked(flowPosition.value) && dialogOpen
                && formTitle == [] && formContent == [] && formKind == "note"
      ensures !(old(adding) && flowPosition.Some?) && old(connecting) ==> selected == NoSelection
      ensures !(old(adding) && flowPosition.Some?) && !old(connecting) ==> selected == old(selected)
      ensures !(old(adding) && flowPosition.Some?) ==>
                dialogOpen == old(dialogOpen) && formTitle == old(formTitle)
                && formContent == old(formContent) && formKind == old(formKind)
    {
      if adding && flowPosition.Some? {
        formTitle, formContent, formKind := [], [], "note";
        dialogOpen := true;
        selected := PositionPicked(flowPosition.value);
      } else if connecting && selected != NoSelection {
        selected := NoSelection;
      }
    }

    /** The node dialog's inputs. */
    method EditForm(title: string, content: string, kind: string)
      modifies this
      ensures formTitle == title && formContent == content && formKind == kind
      ensures nodes == old(nodes) && edges == old(edges) && Modes() == old(Modes()) && selected == old(selected)
      ensures dialogOpen == old(dialogOpen) && detailsOpen == old(detailsOpen)
    {
      formTitle, formContent, formKind := title, content, kind;
    }

    /** The data the form describes; an article node gets a click handler when the map has one to give. */
    function FormData(defaultTitle: bool, hasArticleHandler: bool): NodeData
      reads this
    {
      NodeData(if defaultTitle && formTitle == [] then "Untitled" else formTitle, formContent, formKind,
               formKind == "article" && hasArticleHandler)
    }

    /** `createNode`: append one node at the selection's position, then leave add mode. */
    method CreateNode(now: nat, hasArticleHandler: bool)
      requires Valid()
      modifies this
      ensures Valid()
      ensures SelectedPosition(old(selected)).None? ==>
                nodes == old(nodes) && Modes() == old(Modes()) && dialogOpen == old(dialogOpen)
      ensures SelectedPosition(old(selected)).Some? ==>
                nodes == old(nodes) + [Node("node-" + NatToString(now), SelectedPosition(old(selected)).value,
                                            old(FormData(true, hasArticleHandler)))]
                && !dialogOpen && Modes() == old(Modes()).(adding := false)
      ensures edges == old(edges) && selected == old(selected) && detailsOpen == old(detailsOpen)
      ensures formTitle == old(formTitle) && formContent == old(formContent) && formKind == old(formKind)
    {
      var position := SelectedPosition(selected);
      if position.None? {
        return;
      }
      var newNode := Node("node-" + NatToString(now), position.value, FormData(true, hasArticleHandler));
      assert forall i :: 0 <= i < |edges| ==> HasNode(nodes + [newNode], edges[i].source) && HasNode(nodes + [newNode], edges[i].target) by {
        forall i | 0 <= i < |edges| ensures HasNode(nodes + [newNode], edges[i].source) && HasNode(nodes + [newNode], edges[i].target) {
          var a :| 0 <= a < |nodes| && nodes[a].id == edges[i].source;
          var b :| 0 <= b < |nodes| && nodes[b].id == edges[i].target;
          assert (nodes + [newNode])[a] == nodes[a] && (nodes + [newNode])[b] == nodes[b];
        }
      }
      if connecting && selected.NodeSelected? {
        var a :| 0 <= a < |nodes| && nodes[a].id == selected.node.id;
        assert (nodes + [newNode])[a] == nodes[a];
      }
      nodes := nodes + [newNode];
      dialogOpen := false;
      adding := false;
    }

    /** `updateNode`: the nodes with the selected id take the form's data; then the details close. */
    method UpdateNode(hasArticleHandler: bool)
      requires Valid()
      modifies this
      ensures Valid()
      ensures old(selected) == NoSelection ==> nodes == old(nodes) && detailsOpen == old(detailsOpen)
      ensures old(selected) != NoSelection ==>
                nodes == UpdatedNodes(old(nodes), SelectedId(old(selected)), old(FormData(false, hasArticleHandler)))
                && !detailsOpen
      ensures edges == old(edges) && Modes() == old(Modes()) && selected == old(selected) && dialogOpen == old(dialogOpen)
      ensures formTitle == old(formTitle) && formContent == old(formContent) && formKind == old(formKind)
    {
      if selected == NoSelection {
        return;
      }
      var updated := UpdatedNodes(nodes, SelectedId(selected), FormData(false, hasArticleHandler));
      assert forall id :: HasNode(updated, id) == HasNode(nodes, id) by {
        forall id ensures HasNode(updated, id) == HasNode(nodes, id) {
          if HasNode(nodes, id) {
            var i :| 0 <= i < |nodes| && nodes[i].id == id;
            assert updated[i].id == id;
          }
          if HasNode(updated, id) {
            var i :| 0 <= i < |updated| && updated[i].id == id;
            assert nodes[i].id == id;
          }
        }
      }
      nodes := updated;
      detailsOpen := false;
    }

    /** `toggleAddMode`, `toggleConnectMode`, `toggleDeleteMode`: flip one mode, turn the others off, drop the selection. */
    method ToggleMode(m: Mode)
      requires Valid()
      modifies this
      ensures Valid()
      ensures Modes() == Toggled(m, old(Modes())) && selected == NoSelection
      ensures nodes == old(nodes) && edges == old(edges)
      ensures dialogOpen == old(dialogOpen) && detailsOpen == old(detailsOpen)
      ensures formTitle == old(formTitle) && formContent == old(formContent) && formKind == old(formKind)
    {
      var f := Toggled(m, Modes());
      adding, connecting, deleting := f.adding, f.connecting, f.deleting;
      selected := NoSelection;
    }
  }
}
