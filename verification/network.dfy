/** The logic of the connection graph: the search filter, the node and
    link lists handed to the layout library, node clicks, the empty-state
    overlay and hover emphasis. Layout, drag and tooltips are the layout
    library's concern and are not modelled. */
module Network {
  import opened Wrappers
  import opened Text
  import opened Seqs
  import opened Profile

  // ---------------------------------------------------------------------
  // Search filter

  /** A connection matches when the lowercased query occurs in its
      lowercased name or lowercased role. */
  predicate Matches(query: string, c: Connection) {
    Includes(ToLower(c.name), ToLower(query)) || Includes(ToLower(c.role), ToLower(query))
  }

  /** `filteredConnections`. */
  function FilterConnections(connections: seq<Connection>, query: string): (r: seq<Connection>)
    ensures IsSubsequence(r, connections)
    ensures forall i :: 0 <= i < |r| ==> r[i] in connections && Matches(query, r[i])
    ensures forall i :: 0 <= i < |connections| && Matches(query, connections[i]) ==> connections[i] in r
    ensures forall c :: Occurrences(r, c) == if Matches(query, c) then Occurrences(connections, c) else 0
  {
    Filter(connections, c => Matches(query, c))
  }

  /** The empty query keeps every connection, in order. */
  lemma EmptyQueryKeepsAll(connections: seq<Connection>)
    ensures FilterConnections(connections, "") == connections
  {
    forall i | 0 <= i < |connections|
      ensures Matches("", connections[i])
    {
      IncludesEmpty(ToLower(connections[i].name));
    }
    FilterKeepsAll(connections, c => Matches("", c));
  }

  /** Queries that differ only in letter case select the same connections. */
  lemma CaseInsensitive(connections: seq<Connection>, q1: string, q2: string)
    requires ToLower(q1) == ToLower(q2)
    ensures FilterConnections(connections, q1) == FilterConnections(connections, q2)
  {
    FilterAgree(connections, c => Matches(q1, c), c => Matches(q2, c));
  }

  /** A query that is a lowercase substring of a connection's name keeps
      that connection. */
  lemma NameMatchKept(connections: seq<Connection>, query: string, i: nat, k: nat)
    requires i < |connections|
    requires OccursAt(ToLower(connections[i].name), ToLower(query), k)
    ensures connections[i] in FilterConnections(connections, query)
  {
  }

  // ---------------------------------------------------------------------
  // Graph data

  /** Whether a node is the profile owner or one of their connections. */
  datatype NodeKind = Primary | Peer(kind: ConnectionType)

  /** A graph node: `group` is 0 for the owner and 1 for connections;
      `raw` is the connection a peer node was built from. */
  datatype Node = Node(id: string, group: nat, size: nat, role: string, kind: NodeKind, strength: Option<int>, raw: Option<Connection>)

  datatype Link = Link(source: string, target: string, value: int, kind: ConnectionType)

  function PrimaryNode(userName: string): (node: Node) {
    Node(userName, 0, 12, "Me", Primary, None, None)
  }

  function PeerNode(c: Connection): (node: Node) {
    Node(c.name, 1, 6, c.role, Peer(c.kind), Some(c.strength), Some(c))
  }

  /** The owner's node, then one node per filtered connection in order. */
  function BuildNodes(userName: string, filtered: seq<Connection>): (nodes: seq<Node>)
    ensures |nodes| == |filtered| + 1
    ensures nodes[0].id == userName && nodes[0].group == 0 && nodes[0].raw.None?
    ensures forall i :: 0 <= i < |filtered| ==>
      nodes[i + 1].id == filtered[i].name && nodes[i + 1].group == 1 && nodes[i + 1].raw == Some(filtered[i])
  {
    [PrimaryNode(userName)] + seq(|filtered|, i requires 0 <= i < |filtered| => PeerNode(filtered[i]))
  }

  /** One link from the owner to each filtered connection, in order. */
  function BuildLinks(userName: string, filtered: seq<Connection>): (links: seq<Link>)
    ensures |links| == |filtered|
    ensures forall i :: 0 <= i < |filtered| ==>
      links[i].source == userName && links[i].target == filtered[i].name && links[i].value == filtered[i].strength
  {
    seq(|filtered|, i requires 0 <= i < |filtered| => Link(userName, filtered[i].name, filtered[i].strength, filtered[i].kind))
  }

  /** Both ends of every link name a node of the same graph, so filtering
      nodes and links together never leaves a dangling link. */
  lemma LinksJoinNodes(userName: string, filtered: seq<Connection>, j: nat)
    requires j < |filtered|
    ensures var nodes := BuildNodes(userName, filtered); var l := BuildLinks(userName, filtered)[j];
      nodes[0].id == l.source && nodes[j + 1].id == l.target
  {
  }

  // ---------------------------------------------------------------------
  // Interaction

  /** The selected connection after clicking `node`: peer nodes carrying
      their connection select it, anything else leaves the selection. */
  function ClickNode(selected: Option<Connection>, node: Node): (r: Option<Connection>)
    ensures node.group != 0 && node.raw.Some? ==> r == node.raw
    ensures node.group == 0 || node.raw.None? ==> r == selected
  {
    if node.group != 0 && node.raw.Some? then node.raw else selected
  }

  /** Clicking the owner's node never changes the selection; clicking the
      node of a filtered connection selects exactly that connection. */
  lemma ClickGraphNode(userName: string, filtered: seq<Connection>, selected: Option<Connection>, k: nat)
    requires k <= |filtered|
    ensures var r := ClickNode(selected, BuildNodes(userName, filtered)[k]);
      (k == 0 ==> r == selected) && (k > 0 ==> r == Some(filtered[k - 1]))
  {
  }

  /** The overlay "No connections found" shows when nothing matches a
      non-empty query. */
  predicate EmptyStateShown(connections: seq<Connection>, query: string) {
    |FilterConnections(connections, query)| == 0 && query != ""
  }

  /** The overlay means no connection matches the query; the clear and
      reset controls set the query to "" which hides the overlay and
      restores the full list. */
  lemma EmptyStateAndReset(connections: seq<Connection>, query: string)
    ensures EmptyStateShown(connections, query) ==>
      query != "" && forall i :: 0 <= i < |connections| ==> !Matches(query, connections[i])
    ensures !EmptyStateShown(connections, "")
    ensures FilterConnections(connections, "") == connections
  {
    EmptyQueryKeepsAll(connections);
  }

  /** While `hovered` is under the pointer, node `k` stays fully opaque iff
      it is the hovered node or carries the owner's name as id. */
  predicate NodeEmphasised(nodes: seq<Node>, hovered: nat, k: nat, userName: string)
    requires hovered < |nodes| && k < |nodes|
  {
    k == hovered || nodes[k].id == userName
  }

  /** A link is highlighted iff one of its ends is the hovered node. */
  predicate LinkHighlighted(l: Link, hoveredNode: Node) {
    l.source == hoveredNode.id || l.target == hoveredNode.id
  }

  /** Hovering keeps the hovered node and the owner's node opaque, and a
      peer node other than the hovered one stays opaque only if a
      connection shares the owner's name. */
  lemma HoverEmphasis(userName: string, filtered: seq<Connection>, hovered: nat, k: nat)
    requires hovered <= |filtered| && k <= |filtered|
    ensures var nodes := BuildNodes(userName, filtered);
      NodeEmphasised(nodes, hovered, hovered, userName) && NodeEmphasised(nodes, hovered, 0, userName)
    ensures var nodes := BuildNodes(userName, filtered);
      0 < k != hovered && NodeEmphasised(nodes, hovered, k, userName) ==> filtered[k - 1].name == userName
  {
  }

  /** Hovering the owner highlights every link; hovering a peer
      highlights the link that leads to it. Every other link is dimmed:
      under peer `k`, link `j` stays highlighted only if its connection
      shares the hovered node's name, or that name is the owner's. */
  lemma HoverLinks(userName: string, filtered: seq<Connection>, j: nat, k: nat)
    requires j < |filtered| && k <= |filtered|
    ensures var nodes := BuildNodes(userName, filtered); var links := BuildLinks(userName, filtered);
      LinkHighlighted(links[j], nodes[0]) && LinkHighlighted(links[j], nodes[j + 1])
    ensures var nodes := BuildNodes(userName, filtered); var links := BuildLinks(userName, filtered);
      0 < k ==>
        (LinkHighlighted(links[j], nodes[k]) <==>
          filtered[j].name == filtered[k - 1].name || filtered[k - 1].name == userName)
  {
  }
}
