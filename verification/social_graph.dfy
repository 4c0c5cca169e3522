/**
 * The social graph (graph-microservice/data/repo.go).
 *
 * The Neo4j database is a sequence of nodes, each with an internal key and
 * an Entity's properties, and a sequence of labelled edges between keys (a
 * multiset in the database, kept here in creation order).  Each Cypher
 * statement becomes one operation: MATCH on a property selects every node
 * whose `id` equals it, so several nodes may share an id.
 */
module SocialGraph {
  import opened Wrappers
  import opened Search

  datatype Entity = Entity(id: string, name: string, username: string, entityType: string)

  const ZeroEntity := Entity("", "", "", "")

  datatype Node = Node(key: nat, entity: Entity)

  datatype Label = Follow | FollowRequest

  datatype Edge = Edge(src: nat, rel: Label, dst: nat)

  /** The relationship type as Cypher reports it. */
  function LabelName(rel: Label): string {
    match rel
    case Follow => "FOLLOW"
    case FollowRequest => "FOLLOW_REQUEST"
  }

  // ------------------------------------------------------------ node lookup

  /** The position of the node with a key, |nodes| when there is none. */
  function IndexOfKey(nodes: seq<Node>, key: nat): (i: nat)
    ensures i <= |nodes|
    ensures i < |nodes| ==> nodes[i].key == key
    ensures forall j :: 0 <= j < i ==> nodes[j].key != key
  {
    FirstWhere(nodes, (n: Node) => n.key == key)
  }

  predicate HasNode(nodes: seq<Node>, key: nat) {
    IndexOfKey(nodes, key) < |nodes|
  }

  /** The properties of the node with a key. */
  function EntityOfKey(nodes: seq<Node>, key: nat): Entity {
    var i := IndexOfKey(nodes, key);
    if i < |nodes| then nodes[i].entity else ZeroEntity
  }

  /** `{id: $id}` matches the node with this key. */
  predicate KeyHasId(nodes: seq<Node>, key: nat, id: string) {
    var i := IndexOfKey(nodes, key);
    i < |nodes| && nodes[i].entity.id == id
  }

  predicate UniqueKeys(nodes: seq<Node>) {
    forall i, j :: 0 <= i < j < |nodes| ==> nodes[i].key != nodes[j].key
  }

  /** The graph's representation invariant: keys are distinct and below the next key, and every edge joins two nodes. */
  predicate GraphInvariant(nodes: seq<Node>, edges: seq<Edge>, nextKey: nat) {
    UniqueKeys(nodes)
    && (forall i :: 0 <= i < |nodes| ==> nodes[i].key < nextKey)
    && (forall e :: e in edges ==> HasNode(nodes, e.src) && HasNode(nodes, e.dst))
  }

  lemma IndexOfUniqueKey(nodes: seq<Node>, i: nat)
    requires UniqueKeys(nodes) && i < |nodes|
    ensures IndexOfKey(nodes, nodes[i].key) == i
  {
  }

  /** The keys of the nodes whose id property is `id`, in node order. */
  function KeysWithId(nodes: seq<Node>, id: string): (keys: seq<nat>)
    ensures |keys| <= |nodes|
    ensures forall k :: k in keys <==> exists i :: 0 <= i < |nodes| && nodes[i].key == k && nodes[i].entity.id == id
  {
    if nodes == [] then []
    else (if nodes[0].entity.id == id then [nodes[0].key] else []) + KeysWithId(nodes[1..], id)
  }

  /** With distinct keys, the keys with an id are exactly the nodes `{id: $id}` selects. */
  lemma KeysWithIdMatch(nodes: seq<Node>, id: string, k: nat)
    requires UniqueKeys(nodes)
    ensures k in KeysWithId(nodes, id) <==> KeyHasId(nodes, k, id)
  {
    if k in KeysWithId(nodes, id) {
      var i :| 0 <= i < |nodes| && nodes[i].key == k && nodes[i].entity.id == id;
      IndexOfUniqueKey(nodes, i);
    }
  }

  // ------------------------------------------------------------ edge rows

  /** `MATCH (a {id: $from}), (b {id: $to}) CREATE (a)-[:TYPE]->(b)`: one edge per pair of matched nodes. */
  function PairEdges(sources: seq<nat>, targets: seq<nat>, rel: Label): (r: seq<Edge>)
    ensures forall e :: e in r <==> e.src in sources && e.dst in targets && e.rel == rel
  {
    if sources == [] then []
    else
      EdgesFrom(sources[0], targets, rel)
      + PairEdges(sources[1..], targets, rel)
  }

  /** The rows for one matched source node. */
  function EdgesFrom(source: nat, targets: seq<nat>, rel: Label): (r: seq<Edge>)
    ensures |r| == |targets|
    ensures forall e :: e in r <==> e.src == source && e.dst in targets && e.rel == rel
  {
    if targets == [] then []
    else [Edge(source, rel, targets[0])] + EdgesFrom(source, targets[1..], rel)
  }

  lemma {:induction false} PairEdgesCount(sources: seq<nat>, targets: seq<nat>, rel: Label)
    ensures |PairEdges(sources, targets, rel)| == |sources| * |targets|
  {
    if sources != [] {
      PairEdgesCount(sources[1..], targets, rel);
      assert |EdgesFrom(sources[0], targets, rel)| == |targets|;
      assert |sources| * |targets| == |targets| + (|sources| - 1) * |targets|;
    }
  }

  /** Result.Single() succeeds exactly when the CREATE produced one row: one node on each side. */
  lemma SingleRowIff(sources: seq<nat>, targets: seq<nat>, rel: Label)
    ensures |PairEdges(sources, targets, rel)| == 1 <==> |sources| == 1 && |targets| == 1
  {
    PairEdgesCount(sources, targets, rel);
    if |sources| > 1 && |targets| >= 1 {
      assert |sources| * |targets| >= 2 * |targets|;
    }
    if |sources| >= 1 && |targets| > 1 {
      assert |sources| * |targets| >= |targets|;
    }
  }

  /** The edge is a `rel` relationship from a node with id `fromId` to a node with id `toId`. */
  predicate Matches(nodes: seq<Node>, e: Edge, rel: Label, fromId: string, toId: string) {
    e.rel == rel && KeyHasId(nodes, e.src, fromId) && KeyHasId(nodes, e.dst, toId)
  }

  /** `MATCH (a {id: $from})-[r:TYPE]->(b {id: $to}) DELETE r`. */
  function RemoveMatching(nodes: seq<Node>, edges: seq<Edge>, rel: Label, fromId: string, toId: string): (r: seq<Edge>)
    ensures |r| <= |edges|
    ensures forall e :: e in r <==> e in edges && !Matches(nodes, e, rel, fromId, toId)
  {
    if edges == [] then []
    else
      (if Matches(nodes, edges[0], rel, fromId, toId) then [] else [edges[0]])
      + RemoveMatching(nodes, edges[1..], rel, fromId, toId)
  }

  /** Removing twice is removing once. */
  lemma {:induction false} RemoveMatchingIdempotent(nodes: seq<Node>, edges: seq<Edge>, rel: Label, fromId: string, toId: string)
    ensures RemoveMatching(nodes, RemoveMatching(nodes, edges, rel, fromId, toId), rel, fromId, toId)
      == RemoveMatching(nodes, edges, rel, fromId, toId)
  {
    if edges != [] {
      RemoveMatchingIdempotent(nodes, edges[1..], rel, fromId, toId);
      var rest := RemoveMatching(nodes, edges[1..], rel, fromId, toId);
      if Matches(nodes, edges[0], rel, fromId, toId) {
        assert [] + rest == rest;
      } else {
        assert ([edges[0]] + rest)[0] == edges[0];
        assert ([edges[0]] + rest)[1..] == rest;
      }
    }
  }

  /** `MATCH (en {id: $id}) DETACH DELETE en`: the nodes that stay. */
  function WithoutId(nodes: seq<Node>, id: string): (r: seq<Node>)
    ensures forall n :: n in r <==> n in nodes && n.entity.id != id
  {
    if nodes == [] then []
    else (if nodes[0].entity.id == id then [] else [nodes[0]]) + WithoutId(nodes[1..], id)
  }

  /** The edges DETACH DELETE keeps: those touching no deleted node. */
  function Detached(nodes: seq<Node>, edges: seq<Edge>, id: string): (r: seq<Edge>)
    ensures forall e :: e in r <==> e in edges && !KeyHasId(nodes, e.src, id) && !KeyHasId(nodes, e.dst, id)
  {
    if edges == [] then []
    else
      (if KeyHasId(nodes, edges[0].src, id) || KeyHasId(nodes, edges[0].dst, id) then [] else [edges[0]])
      + Detached(nodes, edges[1..], id)
  }

  lemma {:induction false} WithoutIdUnique(nodes: seq<Node>, id: string)
    requires UniqueKeys(nodes)
    ensures UniqueKeys(WithoutId(nodes, id))
  {
    if nodes != [] {
      WithoutIdUnique(nodes[1..], id);
      var rest := WithoutId(nodes[1..], id);
      if nodes[0].entity.id != id {
        forall j | 0 <= j < |rest|
          ensures rest[j].key != nodes[0].key
        {
          assert rest[j] in nodes[1..];
        }
      }
    }
  }

  /** A node that survives the delete is still found by its key. */
  lemma SurvivorFound(nodes: seq<Node>, id: string, key: nat)
    requires HasNode(nodes, key) && !KeyHasId(nodes, key, id)
    ensures HasNode(WithoutId(nodes, id), key)
    ensures EntityOfKey(WithoutId(nodes, id), key) == EntityOfKey(nodes, key) || !UniqueKeys(nodes)
  {
    var n := nodes[IndexOfKey(nodes, key)];
    var r := WithoutId(nodes, id);
    assert n in r;
    var j :| 0 <= j < |r| && r[j] == n;
    if UniqueKeys(nodes) {
      WithoutIdUnique(nodes, id);
      IndexOfUniqueKey(r, j);
    }
  }

  /** An existing key is found at the same place once a node is appended. */
  lemma AppendKeepsIndex(nodes: seq<Node>, n: Node, key: nat)
    requires HasNode(nodes, key)
    ensures IndexOfKey(nodes + [n], key) == IndexOfKey(nodes, key)
  {
    var i := IndexOfKey(nodes, key);
    assert (nodes + [n])[i] == nodes[i];
    assert forall j :: 0 <= j < i ==> (nodes + [n])[j] == nodes[j];
  }

  // ------------------------------------------------------------------ queries

  /** The nodes at the end of `rel` edges leaving a node with id `id`, one row per edge. */
  function Targets(nodes: seq<Node>, edges: seq<Edge>, rel: Label, id: string): (r: seq<Entity>)
    ensures |r| <= |edges|
    ensures forall x :: x in r <==>
      exists e :: e in edges && e.rel == rel && KeyHasId(nodes, e.src, id) && x == EntityOfKey(nodes, e.dst)
  {
    if edges == [] then []
    else
      var e := edges[0];
      (if e.rel == rel && KeyHasId(nodes, e.src, id) then [EntityOfKey(nodes, e.dst)] else [])
      + Targets(nodes, edges[1..], rel, id)
  }

  /** The nodes at the start of `rel` edges entering a node with id `id`, one row per edge. */
  function Sources(nodes: seq<Node>, edges: seq<Edge>, rel: Label, id: string): (r: seq<Entity>)
    ensures |r| <= |edges|
    ensures forall x :: x in r <==>
      exists e :: e in edges && e.rel == rel && KeyHasId(nodes, e.dst, id) && x == EntityOfKey(nodes, e.src)
  {
    if edges == [] then []
    else
      var e := edges[0];
      (if e.rel == rel && KeyHasId(nodes, e.dst, id) then [EntityOfKey(nodes, e.src)] else [])
      + Sources(nodes, edges[1..], rel, id)
  }

  /** GetAllFollowingFromDatabase. */
  function GetAllFollowing(nodes: seq<Node>, edges: seq<Edge>, id: string): seq<Entity> {
    Targets(nodes, edges, Follow, id)
  }

  /** GetAllFollowersFromDatabase. */
  function GetAllFollowers(nodes: seq<Node>, edges: seq<Edge>, id: string): seq<Entity> {
    Sources(nodes, edges, Follow, id)
  }

  /** GetAllRequestsFromDatabase. */
  function GetAllRequests(nodes: seq<Node>, edges: seq<Edge>, id: string): seq<Entity> {
    Sources(nodes, edges, FollowRequest, id)
  }

  /** Following and followers are the two ends of the same edges. */
  lemma FollowingFollowersDual(nodes: seq<Node>, edges: seq<Edge>, a: Node, b: Node)
    requires UniqueKeys(nodes) && a in nodes && b in nodes
    requires Edge(a.key, Follow, b.key) in edges
    ensures b.entity in GetAllFollowing(nodes, edges, a.entity.id)
    ensures a.entity in GetAllFollowers(nodes, edges, b.entity.id)
  {
    var i :| 0 <= i < |nodes| && nodes[i] == a;
    var j :| 0 <= j < |nodes| && nodes[j] == b;
    IndexOfUniqueKey(nodes, i);
    IndexOfUniqueKey(nodes, j);
  }

  /** `MATCH (en {id})-[:FOLLOW]->(n)` holds for the node with this key. */
  predicate FollowedBy(nodes: seq<Node>, edges: seq<Edge>, id: string, key: nat) {
    exists e :: e in edges && e.rel == Follow && e.dst == key && KeyHasId(nodes, e.src, id)
  }

  /** `en` itself has a FOLLOW edge to the node with key `key`. */
  predicate FollowsKey(edges: seq<Edge>, from: nat, key: nat) {
    Edge(from, Follow, key) in edges
  }

  /**
   * Edges i and j form a two-hop FOLLOW path from a node with the id
   * (relationships in one path are distinct), ending at a node whose id is
   * not the user's and that the path's start does not follow directly.
   */
  predicate IsTwoHop(nodes: seq<Node>, edges: seq<Edge>, id: string, i: nat, j: nat) {
    i < |edges| && j < |edges| && i != j
    && edges[i].rel == Follow && edges[j].rel == Follow
    && KeyHasId(nodes, edges[i].src, id) && edges[i].dst == edges[j].src
    && EntityOfKey(nodes, edges[j].dst).id != id
    && !FollowsKey(edges, edges[i].src, edges[j].dst)
  }

  /** The two-hop rows for the pairs (i, j..) and then every later first edge. */
  function TwoHopRows(nodes: seq<Node>, edges: seq<Edge>, id: string, i: nat, j: nat): (r: seq<Entity>)
    decreases |edges| - i, |edges| - j
    ensures forall x :: x in r ==> x.id != id
    ensures forall x :: x in r ==> exists a: nat, b: nat :: IsTwoHop(nodes, edges, id, a, b) && x == EntityOfKey(nodes, edges[b].dst)
  {
    if i >= |edges| then []
    else if j >= |edges| then TwoHopRows(nodes, edges, id, i + 1, 0)
    else
      (if IsTwoHop(nodes, edges, id, i, j) then [EntityOfKey(nodes, edges[j].dst)] else [])
      + TwoHopRows(nodes, edges, id, i, j + 1)
  }

  /** Every two-hop path at or after (i, j) contributes its end node. */
  lemma {:induction false} TwoHopRowsComplete(nodes: seq<Node>, edges: seq<Edge>, id: string, i: nat, j: nat, a: nat, b: nat)
    requires IsTwoHop(nodes, edges, id, a, b) && (a > i || (a == i && b >= j))
    ensures EntityOfKey(nodes, edges[b].dst) in TwoHopRows(nodes, edges, id, i, j)
    decreases |edges| - i, |edges| - j
  {
    if j >= |edges| {
      TwoHopRowsComplete(nodes, edges, id, i + 1, 0, a, b);
    } else if !(a == i && b == j) {
      TwoHopRowsComplete(nodes, edges, id, i, j + 1, a, b);
    }
  }

  /** The fallback's rows from position k: nodes other than the user's that no node with the id follows. */
  function FallbackRows(nodes: seq<Node>, edges: seq<Edge>, id: string, k: nat): (r: seq<Entity>)
    decreases |nodes| - k
    ensures forall x :: x in r ==> x.id != id
    ensures forall x :: x in r ==> exists m :: k <= m < |nodes| && nodes[m].entity == x && !FollowedBy(nodes, edges, id, nodes[m].key)
  {
    if k >= |nodes| then []
    else
      (if nodes[k].entity.id != id && !FollowedBy(nodes, edges, id, nodes[k].key) then [nodes[k].entity] else [])
      + FallbackRows(nodes, edges, id, k + 1)
  }

  /** Every node at or after position k that is not the user's and that no node with the id follows yields a fallback row. */
  lemma {:induction false} FallbackComplete(nodes: seq<Node>, edges: seq<Edge>, id: string, k: nat, m: nat)
    requires k <= m < |nodes| && nodes[m].entity.id != id && !FollowedBy(nodes, edges, id, nodes[m].key)
    ensures nodes[m].entity in FallbackRows(nodes, edges, id, k)
    decreases m - k
  {
    if k < m {
      FallbackComplete(nodes, edges, id, k + 1, m);
    }
  }

  /** LIMIT n: the first n rows, or all of them when there are fewer. */
  function Limit(rows: seq<Entity>, n: nat): (r: seq<Entity>)
    ensures |r| == if |rows| <= n then |rows| else n
    ensures r <= rows
    ensures forall x :: x in r ==> x in rows
    ensures |rows| <= n ==> r == rows
  {
    if |rows| <= n then rows else rows[..n]
  }

  /** GetAllRecommendedFromDatabase: the two-hop rows, or when there are none at most five other unfollowed nodes. */
  function GetAllRecommended(nodes: seq<Node>, edges: seq<Edge>, id: string): (r: seq<Entity>)
    ensures forall x :: x in r ==> x.id != id
    ensures TwoHopRows(nodes, edges, id, 0, 0) != [] ==> r == TwoHopRows(nodes, edges, id, 0, 0)
    ensures TwoHopRows(nodes, edges, id, 0, 0) == [] ==> (|r| <= 5 &&
      forall x :: x in r ==> exists m :: 0 <= m < |nodes| && nodes[m].entity == x && !FollowedBy(nodes, edges, id, nodes[m].key))
    ensures TwoHopRows(nodes, edges, id, 0, 0) == [] ==>
      r <= FallbackRows(nodes, edges, id, 0)
      && |r| == if |FallbackRows(nodes, edges, id, 0)| <= 5 then |FallbackRows(nodes, edges, id, 0)| else 5
  {
    var rows := TwoHopRows(nodes, edges, id, 0, 0);
    if |rows| == 0 then Limit(FallbackRows(nodes, edges, id, 0), 5) else rows
  }

  /**
   * A recommendation from the two-hop rule is a node two FOLLOW edges away
   * from a node with the id, not the user, and not directly followed by the
   * path's start; every such node is recommended.
   */
  lemma RecommendedTwoHop(nodes: seq<Node>, edges: seq<Edge>, id: string, a: nat, b: nat)
    requires IsTwoHop(nodes, edges, id, a, b)
    ensures EntityOfKey(nodes, edges[b].dst) in GetAllRecommended(nodes, edges, id)
  {
    TwoHopRowsComplete(nodes, edges, id, 0, 0, a, b);
  }

  /**
   * Without a two-hop candidate, any node other than the user's that no
   * node with the id follows makes the recommendation non-empty.
   */
  lemma RecommendedFallback(nodes: seq<Node>, edges: seq<Edge>, id: string, m: nat)
    requires TwoHopRows(nodes, edges, id, 0, 0) == []
    requires m < |nodes| && nodes[m].entity.id != id && !FollowedBy(nodes, edges, id, nodes[m].key)
    ensures GetAllRecommended(nodes, edges, id) != []
  {
    FallbackComplete(nodes, edges, id, 0, m);
  }

  /**
   * CheckRelatinosInDatabase: scan every relationship from a node with id
   * `fromId` to a node with id `toId`; the last one's type is returned, ""
   * when there is none.
   */
  method CheckRelations(nodes: seq<Node>, edges: seq<Edge>, fromId: string, toId: string) returns (relation: string)
    ensures relation == "" <==> forall k :: 0 <= k < |edges| ==> !Related(nodes, edges[k], fromId, toId)
    ensures relation != "" ==> exists k :: (0 <= k < |edges| && Related(nodes, edges[k], fromId, toId)
      && relation == LabelName(edges[k].rel)
      && forall m :: k < m < |edges| ==> !Related(nodes, edges[m], fromId, toId))
  {
    relation := "";
    var last := -1;
    for i := 0 to |edges|
      invariant -1 <= last < i
      invariant last == -1 <==> forall k :: 0 <= k < i ==> !Related(nodes, edges[k], fromId, toId)
      invariant last == -1 ==> relation == ""
      invariant last >= 0 ==> (Related(nodes, edges[last], fromId, toId) && relation == LabelName(edges[last].rel)
        && forall m :: last < m < i ==> !Related(nodes, edges[m], fromId, toId))
    {
      if Related(nodes, edges[i], fromId, toId) {
        relation := LabelName(edges[i].rel);
        last := i;
      }
    }
  }

  /** `(u1 {id: $user1})-[r]->(u2 {id: $user2})`, whatever the type. */
  predicate Related(nodes: seq<Node>, e: Edge, fromId: string, toId: string) {
    KeyHasId(nodes, e.src, fromId) && KeyHasId(nodes, e.dst, toId)
  }

  // ------------------------------------------------------------------ the graph

  class GraphRepository {
    var nodes: seq<Node>
    var edges: seq<Edge>
    var nextKey: nat

    ghost predicate Valid()
      reads this
    {
      GraphInvariant(nodes, edges, nextKey)
    }

    constructor ()
      ensures Valid() && nodes == [] && edges == []
    {
      nodes := [];
      edges := [];
      nextKey := 0;
    }

    /** AddEntityInDatabase: CREATE a node, with no check for an existing id. */
    method AddEntity(entity: Entity)
      requires Valid()
      modifies this
      ensures Valid()
      ensures nodes == old(nodes) + [Node(old(nextKey), entity)] && edges == old(edges)
    {
      forall e | e in edges
        ensures HasNode(nodes + [Node(nextKey, entity)], e.src) && HasNode(nodes + [Node(nextKey, entity)], e.dst)
      {
        AppendKeepsIndex(nodes, Node(nextKey, entity), e.src);
        AppendKeepsIndex(nodes, Node(nextKey, entity), e.dst);
      }
      nodes := nodes + [Node(nextKey, entity)];
      nextKey := nextKey + 1;
    }

    /**
     * AddFollowRelationInDatabase / AddRequestFollowRelationInDatabase: the
     * CREATE runs once per matched pair and Single() accepts exactly one row;
     * otherwise the transaction fails and is rolled back.
     */
    method AddRelation(rel: Label, requestedBy: string, requestedTo: string) returns (ok: bool)
      requires Valid()
      modifies this`edges
      ensures Valid()
      ensures var rows := PairEdges(KeysWithId(nodes, requestedBy), KeysWithId(nodes, requestedTo), rel);
        && ok == (|rows| == 1)
        && edges == if ok then old(edges) + rows else old(edges)
    {
      var rows := PairEdges(KeysWithId(nodes, requestedBy), KeysWithId(nodes, requestedTo), rel);
      if |rows| != 1 {
        return false;
      }
      assert rows[0] in rows;
      edges := edges + rows;
      return true;
    }

    /** RemoveFollowRelationInDatabase: delete every FOLLOW edge between the two ids; "OK" even when there was none. */
    method RemoveFollow(user: string, wantToUnfollow: string)
      requires Valid()
      modifies this`edges
      ensures Valid()
      ensures edges == RemoveMatching(nodes, old(edges), Follow, user, wantToUnfollow)
    {
      edges := RemoveMatching(nodes, edges, Follow, user, wantToUnfollow);
    }

    /** DeleteFollowRequestRelationInDatabase (decline). */
    method DeleteFollowRequest(user: string, onRequestFromUser: string)
      requires Valid()
      modifies this`edges
      ensures Valid()
      ensures edges == RemoveMatching(nodes, old(edges), FollowRequest, onRequestFromUser, user)
    {
      edges := RemoveMatching(nodes, edges, FollowRequest, onRequestFromUser, user);
    }

    /** AcceptFollowRequestRelationInDatabase: the decline, then a FOLLOW per matched pair, without Single(). */
    method AcceptFollowRequest(user: string, onRequestFromUser: string)
      requires Valid()
      modifies this`edges
      ensures Valid()
      ensures edges == Accepted(nodes, old(edges), user, onRequestFromUser)
    {
      var created := PairEdges(KeysWithId(nodes, onRequestFromUser), KeysWithId(nodes, user), Follow);
      edges := RemoveMatching(nodes, edges, FollowRequest, onRequestFromUser, user) + created;
    }

    /** DeleteUserFromDatabase: DETACH DELETE every node with the id. */
    method DeleteUser(id: string)
      requires Valid()
      modifies this`nodes, this`edges
      ensures Valid()
      ensures nodes == WithoutId(old(nodes), id)
      ensures edges == Detached(old(nodes), old(edges), id)
    {
      var kept := Detached(nodes, edges, id);
      forall e | e in kept
        ensures HasNode(WithoutId(nodes, id), e.src) && HasNode(WithoutId(nodes, id), e.dst)
      {
        SurvivorFound(nodes, id, e.src);
        SurvivorFound(nodes, id, e.dst);
      }
      WithoutIdUnique(nodes, id);
      nodes := WithoutId(nodes, id);
      edges := kept;
    }
  }

  /** The edges after an accept. */
  function Accepted(nodes: seq<Node>, edges: seq<Edge>, user: string, onRequestFromUser: string): seq<Edge> {
    RemoveMatching(nodes, edges, FollowRequest, onRequestFromUser, user)
      + PairEdges(KeysWithId(nodes, onRequestFromUser), KeysWithId(nodes, user), Follow)
  }

  /** Accepting is declining followed by a follow for every matched pair; it needs no prior request. */
  lemma AcceptIsDeclineThenFollow(nodes: seq<Node>, edges: seq<Edge>, user: string, from: string)
    requires UniqueKeys(nodes)
    ensures forall e :: e in Accepted(nodes, edges, user, from) <==>
      (e in edges && !Matches(nodes, e, FollowRequest, from, user)) || Matches(nodes, e, Follow, from, user)
  {
    forall e
      ensures e in PairEdges(KeysWithId(nodes, from), KeysWithId(nodes, user), Follow) <==> Matches(nodes, e, Follow, from, user)
    {
      KeysWithIdMatch(nodes, from, e.src);
      KeysWithIdMatch(nodes, user, e.dst);
    }
  }

  /** Decline and unfollow leave every edge of the other type alone. */
  lemma RemoveKeepsOtherLabel(nodes: seq<Node>, edges: seq<Edge>, rel: Label, other: Label, fromId: string, toId: string, e: Edge)
    requires rel != other && e in edges && e.rel == other
    ensures e in RemoveMatching(nodes, edges, rel, fromId, toId)
  {
  }

  /** After a successful follow, the target is among the follower's followings, and unfollowing removes every such edge. */
  lemma FollowThenUnfollow(nodes: seq<Node>, edges: seq<Edge>, nextKey: nat, follower: string, followee: string)
    requires GraphInvariant(nodes, edges, nextKey)
    requires |KeysWithId(nodes, follower)| == 1 && |KeysWithId(nodes, followee)| == 1
    ensures var followed := edges + PairEdges(KeysWithId(nodes, follower), KeysWithId(nodes, followee), Follow);
      && EntityOfKey(nodes, KeysWithId(nodes, followee)[0]) in GetAllFollowing(nodes, followed, follower)
      && forall e :: e in RemoveMatching(nodes, followed, Follow, follower, followee) ==> !Matches(nodes, e, Follow, follower, followee)
  {
    var a := KeysWithId(nodes, follower)[0];
    var b := KeysWithId(nodes, followee)[0];
    assert a in KeysWithId(nodes, follower);
    assert b in KeysWithId(nodes, followee);
    KeysWithIdMatch(nodes, follower, a);
    var followed := edges + PairEdges(KeysWithId(nodes, follower), KeysWithId(nodes, followee), Follow);
    assert Edge(a, Follow, b) in followed;
  }

  /** After DETACH DELETE no node carries the id and no query sees it. */
  lemma DeletedUserGone(nodes: seq<Node>, edges: seq<Edge>, nextKey: nat, id: string)
    requires GraphInvariant(nodes, edges, nextKey)
    ensures KeysWithId(WithoutId(nodes, id), id) == []
    ensures forall e :: e in Detached(nodes, edges, id) ==> !KeyHasId(nodes, e.src, id) && !KeyHasId(nodes, e.dst, id)
  {
    var kept := WithoutId(nodes, id);
    forall i | 0 <= i < |kept|
      ensures kept[i].entity.id != id
    {
      assert kept[i] in kept;
    }
    NoKeysWithId(kept, id);
  }

  lemma {:induction false} NoKeysWithId(nodes: seq<Node>, id: string)
    requires forall i :: 0 <= i < |nodes| ==> nodes[i].entity.id != id
    ensures KeysWithId(nodes, id) == []
  {
    if nodes != [] {
      NoKeysWithId(nodes[1..], id);
    }
  }
}
