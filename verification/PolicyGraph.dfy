/**
 * Policy graph traversals: the bounded neighbourhood of a clause and the surfaces a clause
 * impacts. Both work off a queue that may hold a node more than once; a node is marked when
 * it leaves the queue.
 */
module PolicyGraph {
  import opened Walks

  datatype EdgeType =
    | DependsOn | ConflictsWith | Supersedes | Refines | Exempts | RequiresEvidence
    | RequiresApproval | Constrains | DelegatesTo | InheritsFrom | Triggers | Blocks
    | Supplements | Narrows | Broadens | CrossReferences

  datatype Edge = Edge(id: string, sourceId: Node, targetId: Node, edgeType: EdgeType)

  /** The edges of one tenant are stored under their ids. */
  ghost predicate DistinctIds(edges: seq<Edge>) {
    forall i, j :: 0 <= i < j < |edges| ==> edges[i].id != edges[j].id
  }

  ghost predicate NoDuplicates<T>(s: seq<T>) {
    forall i, j :: 0 <= i < j < |s| ==> s[i] != s[j]
  }

  function FindBySource(edges: seq<Edge>, n: Node): (r: seq<Edge>)
    ensures forall e :: e in r <==> e in edges && e.sourceId == n
  {
    if edges == [] then []
    else (if edges[0].sourceId == n then [edges[0]] else []) + FindBySource(edges[1..], n)
  }

  function FindByTarget(edges: seq<Edge>, n: Node): (r: seq<Edge>)
    ensures forall e :: e in r <==> e in edges && e.targetId == n
  {
    if edges == [] then []
    else (if edges[0].targetId == n then [edges[0]] else []) + FindByTarget(edges[1..], n)
  }

  /** Insertion-ordered set, as JavaScript's Set. */
  function AddTo(s: seq<Node>, x: Node): seq<Node> {
    if x in s then s else s + [x]
  }

  /** Set.add on an insertion-ordered set. */
  lemma AddToMembers(s: seq<Node>, x: Node)
    ensures forall y :: y in AddTo(s, x) <==> y in s || y == x
    ensures NoDuplicates(s) ==> NoDuplicates(AddTo(s, x))
  {
  }

  // ---------------------------------------------------------------------- neighbourhood

  function Incident(e: Edge, n: Node): bool {
    e.sourceId == n || e.targetId == n
  }

  function OtherEnd(e: Edge, n: Node): Node {
    if e.sourceId == n then e.targetId else e.sourceId
  }

  /** Undirected adjacency: the targets of the edges that leave a node, and the sources of those that enter it. */
  function Adjacent(edges: seq<Edge>): Node -> set<Node> {
    n => (set e | e in edges && e.sourceId == n :: e.targetId) + (set e | e in edges && e.targetId == n :: e.sourceId)
  }

  /** The neighbours of a node are the other ends of the edges that touch it. */
  ghost predicate Neighbours(succ: Node -> set<Node>, n: Node, incident: seq<Edge>) {
    forall x :: x in succ(n) <==> exists e :: e in incident && OtherEnd(e, n) == x
  }

  lemma AdjacentNeighbours(edges: seq<Edge>, n: Node, incident: seq<Edge>)
    requires forall e :: e in incident <==> e in edges && Incident(e, n)
    ensures Neighbours(Adjacent(edges), n, incident)
  {
    forall x ensures x in Adjacent(edges)(n) <==> exists e :: e in incident && OtherEnd(e, n) == x {
      if x in Adjacent(edges)(n) {
        if e :| e in edges && e.sourceId == n && e.targetId == x {
          assert Incident(e, n) && OtherEnd(e, n) == x;
        } else {
          var e :| e in edges && e.targetId == n && e.sourceId == x;
          assert Incident(e, n) && (e.sourceId == n ==> x == n);
          assert OtherEnd(e, n) == x;
        }
      }
    }
  }

  datatype QueueItem = QueueItem(id: Node, depth: int)

  datatype GraphNeighbourhood = GraphNeighbourhood(centerId: Node, edges: seq<Edge>, nodeIds: seq<Node>, depth: int)

  ghost predicate AddsEdges(before: seq<Edge>, after: seq<Edge>, incident: seq<Edge>) {
    NoDuplicates(after) && forall e :: e in after <==> e in before || e in incident
  }

  ghost predicate AddsNodes(before: seq<Node>, after: seq<Node>, id: Node, incident: seq<Edge>) {
    NoDuplicates(after) && forall x :: x in after <==> x in before || exists e :: e in incident && OtherEnd(e, id) == x
  }

  /** `added` holds every unvisited neighbour, and nothing else, one level deeper; nothing at the bound. */
  ghost predicate Enqueues(added: seq<QueueItem>, id: Node, d: int, depth: int, visited: set<Node>, incident: seq<Edge>) {
    && (forall q :: q in added ==>
          d + 1 < depth && q.depth == d + 1 && exists e :: e in incident && OtherEnd(e, id) == q.id)
    && (d + 1 < depth ==>
          forall e :: e in incident && OtherEnd(e, id) !in visited ==> QueueItem(OtherEnd(e, id), d + 1) in added)
  }

  /** An edge is kept unless one with its id is there already; ids are distinct, so that is the same edge. */
  method KeepEdge(all: seq<Edge>, edge: Edge, allEdges: seq<Edge>) returns (allEdges': seq<Edge>)
    requires DistinctIds(all) && edge in all && forall e :: e in allEdges ==> e in all
    ensures allEdges' == if edge in allEdges then allEdges else allEdges + [edge]
  {
    if !exists k :: 0 <= k < |allEdges| && allEdges[k].id == edge.id {
      return allEdges + [edge];
    }
    SameIdSameEdge(all, allEdges, edge);
    return allEdges;
  }

  /** The edges kept after the first n of a list, from those already kept. */
  function EdgesAfter(kept: seq<Edge>, incident: seq<Edge>, n: nat): seq<Edge>
    requires n <= |incident|
  {
    if n == 0 then kept
    else
      var before := EdgesAfter(kept, incident, n - 1);
      if incident[n - 1] in before then before else before + [incident[n - 1]]
  }

  function NodesAfter(nodeIds: seq<Node>, incident: seq<Edge>, id: Node, n: nat): seq<Node>
    requires n <= |incident|
  {
    if n == 0 then nodeIds else AddTo(NodesAfter(nodeIds, incident, id, n - 1), OtherEnd(incident[n - 1], id))
  }

  /** What one edge adds to the queue. */
  function Queued(edge: Edge, item: QueueItem, depth: int, visited: set<Node>): seq<QueueItem> {
    if OtherEnd(edge, item.id) !in visited && item.depth + 1 < depth then [QueueItem(OtherEnd(edge, item.id), item.depth + 1)] else []
  }

  function QueuedAfter(incident: seq<Edge>, item: QueueItem, depth: int, visited: set<Node>, n: nat): seq<QueueItem>
    requires n <= |incident|
  {
    if n == 0 then [] else QueuedAfter(incident, item, depth, visited, n - 1) + Queued(incident[n - 1], item, depth, visited)
  }

  /** The loop over the edges of one dequeued node. */
  method Expand(all: seq<Edge>, incident: seq<Edge>, item: QueueItem, depth: int, visited: set<Node>,
                allEdges: seq<Edge>, nodeIds: seq<Node>, queue: seq<QueueItem>)
    returns (allEdges': seq<Edge>, nodeIds': seq<Node>, queue': seq<QueueItem>, ghost added: seq<QueueItem>)
    requires DistinctIds(all) && NoDuplicates(allEdges) && NoDuplicates(nodeIds)
    requires (forall e :: e in allEdges ==> e in all) && (forall e :: e in incident ==> e in all)
    ensures AddsEdges(allEdges, allEdges', incident)
    ensures AddsNodes(nodeIds, nodeIds', item.id, incident)
    ensures queue' == queue + added && Enqueues(added, item.id, item.depth, depth, visited, incident)
  {
    hide AddsEdges, AddsNodes, Enqueues, DistinctIds, NoDuplicates, OtherEnd;
    allEdges', nodeIds', queue' := allEdges, nodeIds, queue;
    var i := 0;
    while i < |incident|
      invariant 0 <= i <= |incident|
      invariant allEdges' == EdgesAfter(allEdges, incident, i) && forall e :: e in allEdges' ==> e in all
      invariant nodeIds' == NodesAfter(nodeIds, incident, item.id, i)
      invariant queue' == queue + QueuedAfter(incident, item, depth, visited, i)
    {
      var edge := incident[i];
      var neighbour := OtherEnd(edge, item.id);
      allEdges' := KeepEdge(all, edge, allEdges');
      nodeIds' := AddTo(nodeIds', neighbour);
      Regroup(queue, QueuedAfter(incident, item, depth, visited, i), Queued(edge, item, depth, visited));
      if neighbour !in visited && item.depth + 1 < depth {
        queue' := queue' + [QueueItem(neighbour, item.depth + 1)];
      }
      i := i + 1;
    }
    assert incident[..i] == incident;
    added := QueuedAfter(incident, item, depth, visited, i);
    EdgesAfterMeaning(allEdges, incident, i);
    NodesAfterMeaning(nodeIds, incident, item.id, i);
    QueuedAfterMeaning(incident, item, depth, visited, i);
  }

  lemma Regroup(queue: seq<QueueItem>, a: seq<QueueItem>, b: seq<QueueItem>)
    ensures queue + (a + b) == if b == [] then queue + a else queue + a + b
  {
    assert b == [] ==> a + b == a;
  }

  lemma {:induction false} EdgesAfterMeaning(kept: seq<Edge>, incident: seq<Edge>, n: nat)
    requires NoDuplicates(kept) && n <= |incident|
    ensures AddsEdges(kept, EdgesAfter(kept, incident, n), incident[..n])
  {
    if n > 0 {
      EdgesAfterMeaning(kept, incident, n - 1);
      assert incident[..n] == incident[..n - 1] + [incident[n - 1]];
      AddsEdge(kept, EdgesAfter(kept, incident, n - 1), EdgesAfter(kept, incident, n), incident[..n - 1], incident[n - 1]);
    }
  }

  lemma {:induction false} NodesAfterMeaning(nodeIds: seq<Node>, incident: seq<Edge>, id: Node, n: nat)
    requires NoDuplicates(nodeIds) && n <= |incident|
    ensures AddsNodes(nodeIds, NodesAfter(nodeIds, incident, id, n), id, incident[..n])
  {
    if n > 0 {
      NodesAfterMeaning(nodeIds, incident, id, n - 1);
      assert incident[..n] == incident[..n - 1] + [incident[n - 1]];
      AddsNode(nodeIds, NodesAfter(nodeIds, incident, id, n - 1), id, incident[..n - 1], incident[n - 1]);
    }
  }

  lemma {:induction false} QueuedAfterMeaning(incident: seq<Edge>, item: QueueItem, depth: int, visited: set<Node>, n: nat)
    requires n <= |incident|
    ensures Enqueues(QueuedAfter(incident, item, depth, visited, n), item.id, item.depth, depth, visited, incident[..n])
  {
    if n > 0 {
      QueuedAfterMeaning(incident, item, depth, visited, n - 1);
      assert incident[..n] == incident[..n - 1] + [incident[n - 1]];
      EnqueuesNext(QueuedAfter(incident, item, depth, visited, n - 1), item, depth, visited, incident[..n - 1], incident[n - 1]);
    }
  }

  lemma AddsEdge(before: seq<Edge>, after: seq<Edge>, after': seq<Edge>, incident: seq<Edge>, edge: Edge)
    requires AddsEdges(before, after, incident)
    requires after' == after + [edge] || (after' == after && edge in after)
    requires after' != after ==> edge !in after
    ensures AddsEdges(before, after', incident + [edge])
  {
  }

  lemma AddsNode(before: seq<Node>, after: seq<Node>, id: Node, incident: seq<Edge>, edge: Edge)
    requires AddsNodes(before, after, id, incident)
    ensures AddsNodes(before, AddTo(after, OtherEnd(edge, id)), id, incident + [edge])
  {
    var after' := AddTo(after, OtherEnd(edge, id));
    AddToMembers(after, OtherEnd(edge, id));
    forall x ensures x in after' <==> x in before || exists e :: e in incident + [edge] && OtherEnd(e, id) == x {
      assert edge in incident + [edge];
      if e :| e in incident && OtherEnd(e, id) == x {
        assert e in incident + [edge];
      }
    }
  }

  lemma EnqueuesNext(added: seq<QueueItem>, item: QueueItem, depth: int, visited: set<Node>, incident: seq<Edge>, edge: Edge)
    requires Enqueues(added, item.id, item.depth, depth, visited, incident)
    ensures Enqueues(added + Queued(edge, item, depth, visited), item.id, item.depth, depth, visited, incident + [edge])
  {
    var added' := added + Queued(edge, item, depth, visited);
    forall q | q in added'
      ensures item.depth + 1 < depth && q.depth == item.depth + 1 && exists e :: e in incident + [edge] && OtherEnd(e, item.id) == q.id
    {
      if q in added {
        var e :| e in incident && OtherEnd(e, item.id) == q.id;
        assert e in incident + [edge];
      } else {
        assert edge in incident + [edge];
      }
    }
  }

  lemma SameIdSameEdge(all: seq<Edge>, found: seq<Edge>, edge: Edge)
    requires DistinctIds(all) && edge in all
    requires forall e :: e in found ==> e in all
    requires exists k :: 0 <= k < |found| && found[k].id == edge.id
    ensures edge in found
  {
    var k :| 0 <= k < |found| && found[k].id == edge.id;
    assert found[k] in all;
    var i :| 0 <= i < |all| && all[i] == edge;
    var j :| 0 <= j < |all| && all[j] == found[k];
  }

  /** Levels of the queue: first the rest of level `cur`, then part of level `cur + 1`. */
  ghost predicate QueueLevels(succ: Node -> set<Node>, c: Node, depth: int, cur: nat, queue: seq<QueueItem>, k: nat) {
    && k <= |queue|
    && (forall i :: 0 <= i < k ==> queue[i].depth == cur && queue[i].id in Within(succ, c, cur))
    && (forall i :: k <= i < |queue| ==>
          queue[i].depth == cur + 1 && cur + 1 < depth && queue[i].id in Within(succ, c, cur + 1))
  }

  /**
   * Between two iterations: everything nearer than `cur` is visited, level `cur` is visited or
   * queued, and so are the neighbours of what level `cur` has contributed so far.
   */
  ghost predicate Frontier(succ: Node -> set<Node>, c: Node, depth: int, cur: nat, queue: seq<QueueItem>, visited: set<Node>) {
    && cur < depth
    && visited <= Within(succ, c, cur)
    && (cur > 0 ==> Within(succ, c, cur - 1) <= visited)
    && (forall x :: x in Within(succ, c, cur) && x !in visited ==> QueueItem(x, cur) in queue)
    && (cur + 1 < depth ==>
          forall x, y :: x in visited && y in succ(x) && y !in visited && y !in Within(succ, c, cur) ==> QueueItem(y, cur + 1) in queue)
  }

  /** With level `cur` used up, the next one is a frontier in turn. */
  lemma NextLevel(succ: Node -> set<Node>, c: Node, depth: int, cur: nat, queue: seq<QueueItem>, visited: set<Node>)
    requires Frontier(succ, c, depth, cur, queue, visited) && QueueLevels(succ, c, depth, cur, queue, 0)
    ensures visited == Within(succ, c, cur)
    ensures cur + 1 < depth ==> Frontier(succ, c, depth, cur + 1, queue, visited)
    ensures queue != [] ==> cur + 1 < depth && QueueLevels(succ, c, depth, cur + 1, queue, |queue|)
  {
    assert forall x :: x in Within(succ, c, cur) ==> x in visited || QueueItem(x, cur) in queue;
    assert queue != [] ==> queue[0].depth == cur + 1;
  }

  /** With nothing queued below the bound, no edge leaves what was visited. */
  lemma NothingBeyond(succ: Node -> set<Node>, c: Node, depth: int, cur: nat, visited: set<Node>)
    requires Frontier(succ, c, depth, cur, [], visited) && cur + 1 < depth && visited == Within(succ, c, cur)
    ensures Image(succ, visited) <= visited
  {
  }

  lemma Settled(succ: Node -> set<Node>, c: Node, cur: nat, n: nat, visited: set<Node>)
    requires visited == Within(succ, c, cur) && Image(succ, visited) <= visited && cur <= n
    ensures visited == Within(succ, c, n)
  {
    WithinSettles(succ, c, cur, n);
  }

  lemma LastLevel(succ: Node -> set<Node>, c: Node, depth: int, cur: nat, visited: set<Node>)
    requires Frontier(succ, c, depth, cur, [], visited)
    ensures cur < depth && visited == Within(succ, c, cur)
    ensures cur + 1 < depth ==> Image(succ, visited) <= visited
  {
    NextLevel(succ, c, depth, cur, [], visited);
    if cur + 1 < depth {
      NothingBeyond(succ, c, depth, cur, visited);
    }
  }

  /** When the queue runs dry, the visited set is everything nearer than the bound. */
  lemma EmptyQueue(succ: Node -> set<Node>, c: Node, depth: int, cur: nat, visited: set<Node>)
    requires Frontier(succ, c, depth, cur, [], visited)
    ensures visited == Within(succ, c, depth - 1)
  {
    LastLevel(succ, c, depth, cur, visited);
    if cur + 1 < depth {
      Settled(succ, c, cur, depth - 1, visited);
    }
  }

  /** Popping an item that is already visited loses nothing. */
  lemma SkipVisited(succ: Node -> set<Node>, c: Node, depth: int, cur: nat, queue: seq<QueueItem>, visited: set<Node>, k: nat)
    requires Frontier(succ, c, depth, cur, queue, visited) && QueueLevels(succ, c, depth, cur, queue, k)
    requires k > 0 && queue[0].id in visited
    ensures Frontier(succ, c, depth, cur, queue[1..], visited) && QueueLevels(succ, c, depth, cur, queue[1..], k - 1)
  {
    forall q | q in queue && q != queue[0] ensures q in queue[1..] {
    }
  }

  /** What the head adds is one level deeper, and near enough. */
  lemma AddedLevel(succ: Node -> set<Node>, c: Node, depth: int, cur: nat, id: Node, visited: set<Node>, incident: seq<Edge>,
                   added: seq<QueueItem>)
    requires id in Within(succ, c, cur) && Neighbours(succ, id, incident) && Enqueues(added, id, cur, depth, visited, incident)
    ensures forall q :: q in added ==> q.depth == cur + 1 && cur + 1 < depth && q.id in Within(succ, c, cur + 1)
  {
    hide OtherEnd;
    forall q | q in added ensures q.id in Within(succ, c, cur + 1) {
      assert q.id in succ(id);
    }
  }

  /** Visiting the head and queueing its unvisited neighbours keeps the frontier. */
  lemma VisitHead(succ: Node -> set<Node>, c: Node, depth: int, cur: nat, queue: seq<QueueItem>, visited: set<Node>, k: nat,
                  incident: seq<Edge>, added: seq<QueueItem>)
    requires Frontier(succ, c, depth, cur, queue, visited)
    requires QueueLevels(succ, c, depth, cur, queue, k) && k > 0
    requires Neighbours(succ, queue[0].id, incident)
    requires Enqueues(added, queue[0].id, cur, depth, visited + {queue[0].id}, incident)
    ensures Frontier(succ, c, depth, cur, queue[1..] + added, visited + {queue[0].id})
    ensures QueueLevels(succ, c, depth, cur, queue[1..] + added, k - 1)
  {
    VisitQueue(succ, c, depth, cur, queue, visited, k, incident, added);
    hide OtherEnd, QueueLevels;
    var id := queue[0].id;
    var rest, visited' := queue[1..] + added, visited + {id};
    forall q | q in queue && q != queue[0] ensures q in rest {
      assert q in queue[1..];
    }
    if cur + 1 < depth {
      forall x, y | x in visited' && y in succ(x) && y !in visited' && y !in Within(succ, c, cur)
        ensures QueueItem(y, cur + 1) in rest
      {
        if x == id {
          var e :| e in incident && OtherEnd(e, id) == y;
          assert QueueItem(OtherEnd(e, id), cur + 1) in added;
        } else {
          assert QueueItem(y, cur + 1) in queue;
        }
      }
    }
  }

  lemma VisitQueue(succ: Node -> set<Node>, c: Node, depth: int, cur: nat, queue: seq<QueueItem>, visited: set<Node>, k: nat,
                   incident: seq<Edge>, added: seq<QueueItem>)
    requires Frontier(succ, c, depth, cur, queue, visited)
    requires QueueLevels(succ, c, depth, cur, queue, k) && k > 0
    requires Neighbours(succ, queue[0].id, incident)
    requires Enqueues(added, queue[0].id, cur, depth, visited + {queue[0].id}, incident)
    ensures queue[0].id in Within(succ, c, cur)
    ensures QueueLevels(succ, c, depth, cur, queue[1..] + added, k - 1)
  {
    AddedLevel(succ, c, depth, cur, queue[0].id, visited + {queue[0].id}, incident, added);
    hide Frontier, Enqueues, Neighbours, Within;
    var rest := queue[1..] + added;
    forall i | 0 <= i < k - 1 ensures rest[i].depth == cur && rest[i].id in Within(succ, c, cur) {
      assert rest[i] == queue[i + 1];
    }
    forall i | k - 1 <= i < |rest| ensures rest[i].depth == cur + 1 && cur + 1 < depth && rest[i].id in Within(succ, c, cur + 1) {
      if i < |queue| - 1 {
        assert rest[i] == queue[i + 1];
      } else {
        assert rest[i] == added[i - (|queue| - 1)];
      }
    }
  }

  function Endpoints(edges: seq<Edge>): set<Node> {
    (set e | e in edges :: e.sourceId) + (set e | e in edges :: e.targetId)
  }

  lemma {:induction false} WithinEndpoints(edges: seq<Edge>, c: Node, n: nat)
    ensures Within(Adjacent(edges), c, n) <= {c} + Endpoints(edges)
  {
    if n > 0 {
      WithinEndpoints(edges, c, n - 1);
    }
  }

  ghost predicate Touched(e: Edge, s: set<Node>) {
    e.sourceId in s || e.targetId in s
  }

  /** What the result holds once `visited` has been expanded. */
  ghost predicate Collected(edges: seq<Edge>, c: Node, visited: set<Node>, allEdges: seq<Edge>, nodeIds: seq<Node>) {
    && NoDuplicates(allEdges) && NoDuplicates(nodeIds)
    && (forall e :: e in allEdges <==> e in edges && Touched(e, visited))
    && (forall x :: x in nodeIds <==> x == c || x in Image(Adjacent(edges), visited))
  }

  lemma CollectMore(edges: seq<Edge>, c: Node, visited: set<Node>, id: Node, incident: seq<Edge>,
                    es: seq<Edge>, ns: seq<Node>, es': seq<Edge>, ns': seq<Node>)
    requires Collected(edges, c, visited, es, ns)
    requires forall e :: e in incident <==> e in edges && Incident(e, id)
    requires AddsEdges(es, es', incident) && AddsNodes(ns, ns', id, incident)
    ensures Collected(edges, c, visited + {id}, es', ns')
  {
    var succ := Adjacent(edges);
    AdjacentNeighbours(edges, id, incident);
    hide Adjacent, OtherEnd;
    forall x ensures x in Image(succ, visited + {id}) <==> x in Image(succ, visited) || x in succ(id) {
    }
  }

  ghost predicate EndpointNear(edges: seq<Edge>, c: Node, e: Edge, n: nat) {
    AtDistance(Adjacent(edges), c, e.sourceId, n) || AtDistance(Adjacent(edges), c, e.targetId, n)
  }

  /**
   * Bounded breadth-first search. For a positive depth the nodes are exactly those at distance
   * at most depth and the edges, once each, exactly those with an endpoint at a smaller
   * distance; otherwise only the center is returned.
   */
  method ClauseNeighbourhood(edges: seq<Edge>, clauseId: Node, depth: int) returns (r: GraphNeighbourhood)
    requires DistinctIds(edges)
    ensures r.centerId == clauseId && r.depth == depth
    ensures NoDuplicates(r.edges) && NoDuplicates(r.nodeIds)
    ensures forall x :: x in r.nodeIds <==> AtDistance(Adjacent(edges), clauseId, x, if depth > 0 then depth else 0)
    ensures forall e :: e in r.edges <==> e in edges && depth > 0 && EndpointNear(edges, clauseId, e, depth - 1)
  {
    var allEdges: seq<Edge> := [];
    var nodeIds: seq<Node> := [clauseId];
    var visited: set<Node> := {};
    var queue := [QueueItem(clauseId, 0)];
    ghost var succ := Adjacent(edges);
    ghost var universe := {clauseId} + Endpoints(edges);
    ghost var cur: nat, k: nat := 0, 1;

    while |queue| > 0
      invariant Collected(edges, clauseId, visited, allEdges, nodeIds)
      invariant depth <= 0 ==> visited == {} && forall q :: q in queue ==> q.depth >= depth
      invariant depth > 0 ==> Frontier(succ, clauseId, depth, cur, queue, visited) && QueueLevels(succ, clauseId, depth, cur, queue, k)
      decreases universe - visited, |queue|
    {
      if depth > 0 {
        cur, k := Settle(succ, clauseId, depth, cur, queue, visited, k);
      }
      var QueueItem(id, currentDepth) := queue[0];
      ghost var before := queue;
      queue := queue[1..];
      if id in visited || currentDepth >= depth {
        if depth > 0 {
          SkipVisited(succ, clauseId, depth, cur, before, visited, k);
          k := k - 1;
        }
        continue;
      }
      WithinEndpoints(edges, clauseId, cur);
      var incident := FindBySource(edges, id) + FindByTarget(edges, id);
      ghost var es, ns := allEdges, nodeIds;
      ghost var added;
      allEdges, nodeIds, queue, added := Expand(edges, incident, QueueItem(id, currentDepth), depth, visited + {id}, allEdges, nodeIds, queue);
      CollectMore(edges, clauseId, visited, id, incident, es, ns, allEdges, nodeIds);
      AdjacentNeighbours(edges, id, incident);
      VisitHead(succ, clauseId, depth, cur, before, visited, k, incident, added);
      visited := visited + {id};
      k := k - 1;
    }
    if depth > 0 {
      EmptyQueue(succ, clauseId, depth, cur, visited);
    }
    NeighbourhoodMeaning(edges, clauseId, depth, visited, allEdges, nodeIds);
    return GraphNeighbourhood(clauseId, allEdges, nodeIds, depth);
  }

  /** Moves to the next level when the current one is used up, so that the head belongs to level cur'. */
  lemma Settle(succ: Node -> set<Node>, c: Node, depth: int, cur: nat, queue: seq<QueueItem>, visited: set<Node>, k: nat)
    returns (cur': nat, k': nat)
    requires Frontier(succ, c, depth, cur, queue, visited) && QueueLevels(succ, c, depth, cur, queue, k) && queue != []
    ensures Frontier(succ, c, depth, cur', queue, visited) && QueueLevels(succ, c, depth, cur', queue, k')
    ensures k' > 0 && queue[0].depth == cur' < depth && queue[0].id in Within(succ, c, cur')
  {
    cur', k' := cur, k;
    if k == 0 {
      NextLevel(succ, c, depth, cur, queue, visited);
      cur', k' := cur + 1, |queue|;
    }
  }

  lemma NeighbourhoodMeaning(edges: seq<Edge>, c: Node, depth: int, visited: set<Node>, allEdges: seq<Edge>, nodeIds: seq<Node>)
    requires Collected(edges, c, visited, allEdges, nodeIds)
    requires visited == if depth > 0 then Within(Adjacent(edges), c, depth - 1) else {}
    ensures forall x :: x in nodeIds <==> AtDistance(Adjacent(edges), c, x, if depth > 0 then depth else 0)
    ensures forall e :: e in allEdges <==> e in edges && depth > 0 && EndpointNear(edges, c, e, depth - 1)
  {
    hide Adjacent, NoDuplicates;
    var succ := Adjacent(edges);
    forall x ensures x in nodeIds <==> AtDistance(succ, c, x, if depth > 0 then depth else 0) {
      WithinIsDistance(succ, c, if depth > 0 then depth else 0, x);
      if depth > 0 {
        NodesOfBound(succ, c, depth, x);
      }
    }
    if depth > 0 {
      forall x ensures x in visited <==> AtDistance(succ, c, x, depth - 1) {
        WithinIsDistance(succ, c, depth - 1, x);
      }
    }
  }

  lemma NodesOfBound(succ: Node -> set<Node>, c: Node, n: nat, x: Node)
    requires n > 0
    ensures x in Within(succ, c, n) <==> x == c || x in Image(succ, Within(succ, c, n - 1))
  {
    WithinMonotone(succ, c, 0, n);
    if x in Within(succ, c, n - 1) && x != c {
      WithinEntered(succ, c, n - 1, x);
    }
  }

  lemma {:induction false} WithinEntered(succ: Node -> set<Node>, c: Node, n: nat, x: Node)
    requires x in Within(succ, c, n) && x != c
    ensures x in Image(succ, Within(succ, c, n))
  {
    if x in Within(succ, c, n - 1) {
      WithinEntered(succ, c, n - 1, x);
    }
  }

  // ---------------------------------------------------------------------- impact

  predicate Impacts(t: EdgeType) {
    t == Constrains || t == Blocks || t == Triggers
  }

  predicate FollowedForward(t: EdgeType) {
    t == DependsOn || t == Refines || t == Narrows || t == Broadens || t == Supersedes
  }

  predicate FollowedBackward(t: EdgeType) {
    t == DependsOn || t == Refines || t == Narrows || t == Broadens
  }

  /** The clauses one step away: along the listed edges, and against all of them but supersedes. */
  function ImpactStep(edges: seq<Edge>): Node -> set<Node> {
    n => (set e | e in edges && e.sourceId == n
            && (e.edgeType == DependsOn || e.edgeType == Refines || e.edgeType == Narrows || e.edgeType == Broadens
                || e.edgeType == Supersedes) :: e.targetId)
       + (set e | e in edges && e.targetId == n
            && (e.edgeType == DependsOn || e.edgeType == Refines || e.edgeType == Narrows || e.edgeType == Broadens) :: e.sourceId)
  }

  /** A constrains, blocks or triggers edge leads from the clause to the surface. */
  ghost predicate LeadsTo(edges: seq<Edge>, n: Node, surface: Node) {
    exists e :: e in edges && e.sourceId == n && e.targetId == surface
      && (e.edgeType == Constrains || e.edgeType == Blocks || e.edgeType == Triggers)
  }

  function SurfacesOf(edges: seq<Edge>, n: Node): set<Node> {
    set e | e in edges && e.sourceId == n && Impacts(e.edgeType) :: e.targetId
  }

  /** Everything seen so far is reachable, and every step from a visited clause was seen. */
  ghost predicate Exploring(edges: seq<Edge>, c: Node, visited: set<Node>, queue: seq<Node>) {
    && (c in visited || c in queue)
    && (forall x :: x in visited || x in queue ==> Reachable(ImpactStep(edges), c, x))
    && (forall x, y :: x in visited && y in ImpactStep(edges)(x) ==> y in visited || y in queue)
  }

  /** The loop over the outgoing edges: impacted surfaces are collected, followed targets queued. */
  method ScanOutgoing(outgoing: seq<Edge>, visited: set<Node>, surfaceIds: seq<Node>, queue: seq<Node>)
    returns (surfaceIds': seq<Node>, queue': seq<Node>)
    requires NoDuplicates(surfaceIds)
    ensures NoDuplicates(surfaceIds')
    ensures forall x :: x in surfaceIds' <==>
      x in surfaceIds || exists e :: e in outgoing && Impacts(e.edgeType) && e.targetId == x
    ensures forall x :: x in queue' <==>
      x in queue || exists e :: e in outgoing && FollowedForward(e.edgeType) && e.targetId !in visited && e.targetId == x
  {
    surfaceIds', queue' := surfaceIds, queue;
    var i := 0;
    while i < |outgoing|
      invariant 0 <= i <= |outgoing|
      invariant NoDuplicates(surfaceIds')
      invariant forall x :: x in surfaceIds' <==>
        x in surfaceIds || exists e :: e in outgoing[..i] && Impacts(e.edgeType) && e.targetId == x
      invariant forall x :: x in queue' <==>
        x in queue || exists e :: e in outgoing[..i] && FollowedForward(e.edgeType) && e.targetId !in visited && e.targetId == x
    {
      var edge := outgoing[i];
      assert outgoing[..i + 1] == outgoing[..i] + [edge];
      if Impacts(edge.edgeType) {
        AddToMembers(surfaceIds', edge.targetId);
        surfaceIds' := AddTo(surfaceIds', edge.targetId);
      } else if FollowedForward(edge.edgeType) {
        if edge.targetId !in visited {
          queue' := queue' + [edge.targetId];
        }
      }
      i := i + 1;
    }
    assert outgoing[..|outgoing|] == outgoing;
  }

  method ScanIncoming(incoming: seq<Edge>, visited: set<Node>, queue: seq<Node>) returns (queue': seq<Node>)
    ensures forall x :: x in queue' <==>
      x in queue || exists e :: e in incoming && FollowedBackward(e.edgeType) && e.sourceId !in visited && e.sourceId == x
  {
    queue' := queue;
    var i := 0;
    while i < |incoming|
      invariant 0 <= i <= |incoming|
      invariant forall x :: x in queue' <==>
        x in queue || exists e :: e in incoming[..i] && FollowedBackward(e.edgeType) && e.sourceId !in visited && e.sourceId == x
    {
      var edge := incoming[i];
      assert incoming[..i + 1] == incoming[..i] + [edge];
      if FollowedBackward(edge.edgeType) && edge.sourceId !in visited {
        queue' := queue' + [edge.sourceId];
      }
      i := i + 1;
    }
    assert incoming[..|incoming|] == incoming;
  }

  /**
   * The surfaces a clause impacts: exactly the targets of constrains, blocks and triggers edges
   * leaving a clause reachable from it, once each.
   */
  method SurfacesImpactedByClause(edges: seq<Edge>, clauseId: Node) returns (surfaceIds: seq<Node>)
    ensures NoDuplicates(surfaceIds)
    ensures forall x :: x in surfaceIds <==> exists n :: Reachable(ImpactStep(edges), clauseId, n) && LeadsTo(edges, n, x)
  {
    hide ImpactStep, FollowedForward, FollowedBackward;
    surfaceIds := [];
    var visited: set<Node> := {};
    var queue := [clauseId];
    ghost var universe := {clauseId} + Endpoints(edges);
    assert IsWalk(ImpactStep(edges), clauseId, clauseId, [clauseId]);
    while |queue| > 0
      invariant NoDuplicates(surfaceIds)
      invariant Exploring(edges, clauseId, visited, queue)
      invariant forall x :: x in surfaceIds <==> exists n :: n in visited && x in SurfacesOf(edges, n)
      invariant forall x :: x in queue ==> x in universe
      decreases universe - visited, |queue|
    {
      var currentId := queue[0];
      ghost var before := queue;
      queue := queue[1..];
      assert forall x :: x in before ==> x == currentId || x in queue;
      if currentId in visited {
        continue;
      }
      ghost var rest := queue;
      var outgoing := FindBySource(edges, currentId);
      surfaceIds, queue := ScanOutgoing(outgoing, visited + {currentId}, surfaceIds, queue);
      var incoming := FindByTarget(edges, currentId);
      ghost var after := queue;
      queue := ScanIncoming(incoming, visited + {currentId}, queue);
      ScansStep(edges, currentId, visited + {currentId}, outgoing, incoming, rest, after, queue);
      ExploreMore(edges, clauseId, visited, before, currentId, rest, queue);
      visited := visited + {currentId};
    }
    forall n ensures n in visited <==> Reachable(ImpactStep(edges), clauseId, n) {
      ReachableSet(ImpactStep(edges), visited, clauseId, n);
    }
    forall n, x ensures x in SurfacesOf(edges, n) <==> LeadsTo(edges, n, x) {
    }
  }

  /** Both scans together queue the unmarked clauses one step away. */
  lemma ScansStep(edges: seq<Edge>, id: Node, marked: set<Node>, outgoing: seq<Edge>, incoming: seq<Edge>,
                  rest: seq<Node>, after: seq<Node>, queue: seq<Node>)
    requires forall e :: e in outgoing <==> e in edges && e.sourceId == id
    requires forall e :: e in incoming <==> e in edges && e.targetId == id
    requires forall x :: x in after <==>
      x in rest || exists e :: e in outgoing && FollowedForward(e.edgeType) && e.targetId !in marked && e.targetId == x
    requires forall x :: x in queue <==>
      x in after || exists e :: e in incoming && FollowedBackward(e.edgeType) && e.sourceId !in marked && e.sourceId == x
    ensures forall x :: x in queue <==> x in rest || (x in ImpactStep(edges)(id) && x !in marked)
  {
  }

  lemma ExploreMore(edges: seq<Edge>, c: Node, visited: set<Node>, before: seq<Node>, id: Node, rest: seq<Node>, queue: seq<Node>)
    requires Exploring(edges, c, visited, before) && before != [] && id == before[0] && rest == before[1..]
    requires forall x :: x in queue <==> x in rest || (x in ImpactStep(edges)(id) && x !in visited + {id})
    ensures Exploring(edges, c, visited + {id}, queue)
  {
    assert forall x :: x in before ==> x == id || x in rest;
    assert id in before;
    forall x | x in ImpactStep(edges)(id) ensures Reachable(ImpactStep(edges), c, x) {
      ReachableStep(ImpactStep(edges), c, id, x);
    }
    forall x | x in queue ensures Reachable(ImpactStep(edges), c, x) {
      if x in rest { assert x in before; }
    }
  }
}
