/** The blast radius of a credential (internal/graph): what can be reached from it in the inventory. */
module CredentialGraph {
  import opened Names

  datatype Kind = Workload | Credential | Resource | Issuer | CryptoAsset | Attestation

  /** The nodes by id, and where each id's edges lead; an edge may lead to an id that is no node. */
  datatype Graph = Graph(nodes: map<string, Kind>, out: map<string, seq<string>>)

  function Next(g: Graph, id: string): (ids: seq<string>) {
    if id in g.out then g.out[id] else []
  }

  /** Each id after the first is a node that an edge of the one before it leads to. */
  ghost predicate IsWay(g: Graph, p: seq<string>) {
    p != [] && forall i :: 0 < i < |p| ==> p[i] in g.nodes && p[i] in Next(g, p[i - 1])
  }

  ghost predicate Leads(g: Graph, p: seq<string>, from: string, to: string) {
    IsWay(g, p) && p[0] == from && p[|p| - 1] == to
  }

  /** Another node that edges between nodes lead to. */
  ghost predicate Downstream(g: Graph, from: string, to: string) {
    from != to && exists p :: Leads(g, p, from, to)
  }

  lemma OneFurther(g: Graph, from: string, via: string, to: string)
    requires via == from || Downstream(g, from, via)
    requires to in Next(g, via) && to in g.nodes && to != from
    ensures Downstream(g, from, to)
  {
    if via == from {
      assert Leads(g, [from, to], from, to);
    } else {
      var p :| Leads(g, p, from, via);
      assert Leads(g, p + [to], from, to);
    }
  }

  /** What is found so far: the nodes visited, each once, all of them downstream. */
  ghost predicate Finding(g: Graph, from: string, visited: set<string>, queue: seq<string>, found: seq<string>) {
    && from in visited && Distinct(found)
    && (forall id :: id in found <==> id in visited && id in g.nodes && id != from)
    && (forall id :: id in found ==> Downstream(g, from, id))
    && (forall id :: id in queue ==> id == from || id in found)
  }

  /** The edges of everything found were followed, but for what waits and what is being looked at. */
  ghost predicate Followed(g: Graph, from: string, visited: set<string>, waiting: set<string>) {
    forall x, y :: (x == from || (x in visited && x in g.nodes)) && x !in waiting && y in Next(g, x) ==> y in visited
  }

  lemma {:induction false} WayIsVisited(g: Graph, from: string, visited: set<string>, p: seq<string>)
    requires from in visited && Followed(g, from, visited, {}) && IsWay(g, p) && p[0] == from
    ensures p[|p| - 1] in visited
  {
    if |p| > 1 {
      var q := p[..|p| - 1];
      WayIsVisited(g, from, visited, q);
      assert q[|q| - 1] == p[|p| - 2];
      assert p[|p| - 1] in Next(g, p[|p| - 2]);
      if |q| > 1 { assert p[|p| - 2] in g.nodes; }
    }
  }

  lemma AllFound(g: Graph, from: string, visited: set<string>, found: seq<string>)
    requires Finding(g, from, visited, [], found) && Followed(g, from, visited, {})
    ensures forall id :: id in found <==> Downstream(g, from, id)
  {
    forall id | Downstream(g, from, id) ensures id in found {
      var p :| Leads(g, p, from, id);
      WayIsVisited(g, from, visited, p);
    }
  }

  method SortList(ids: seq<string>) returns (out: seq<string>)
    requires Distinct(ids)
    ensures Sorted(out) && forall id :: id in out <==> id in ids
  {
    out := [];
    for i := 0 to |ids|
      invariant Sorted(out) && forall id :: id in out <==> id in ids[..i]
    {
      InsertKeepsSorted(out, ids[i]);
      out := Insert(out, ids[i]);
      assert ids[..i + 1] == ids[..i] + [ids[i]];
    }
    assert ids[..|ids|] == ids;
  }

  /** Breadth-first search: exactly the nodes downstream, each once and in order of their ids. */
  method Reachable(g: Graph, from: string) returns (out: seq<string>)
    ensures Sorted(out) && forall id :: id in out <==> Downstream(g, from, id)
  {
    var visited, queue, found := {from}, [from], [];
    while queue != []
      invariant Finding(g, from, visited, queue, found)
      invariant Followed(g, from, visited, set id | id in queue)
      decreases g.nodes.Keys - visited, |queue|
    {
      var cur := queue[0];
      visited, queue, found := Follow(g, from, cur, visited, queue[1..], found);
    }
    AllFound(g, from, visited, found);
    out := SortList(found);
  }

  /** Follows the edges of one node: what they newly lead to is found and waits in turn. */
  method Follow(g: Graph, from: string, cur: string, visited: set<string>, queue: seq<string>, found: seq<string>)
    returns (visited': set<string>, queue': seq<string>, found': seq<string>)
    requires Finding(g, from, visited, [cur] + queue, found)
    requires Followed(g, from, visited, set id | id in [cur] + queue)
    ensures Finding(g, from, visited', queue', found') && Followed(g, from, visited', set id | id in queue')
    ensures g.nodes.Keys - visited' <= g.nodes.Keys - visited
    ensures queue' == queue || g.nodes.Keys - visited' < g.nodes.Keys - visited
  {
    visited', queue', found' := visited, queue, found;
    var edges := Next(g, cur);
    assert cur in [cur] + queue;
    for i := 0 to |edges|
      invariant Finding(g, from, visited', queue', found') && (cur == from || cur in found')
      invariant Followed(g, from, visited', (set id | id in queue') + {cur})
      invariant visited <= visited' && forall j :: 0 <= j < i ==> edges[j] in visited'
      invariant queue' == queue || g.nodes.Keys - visited' < g.nodes.Keys - visited
    {
      var to := edges[i];
      if to !in visited' {
        visited' := visited' + {to};
        if to in g.nodes {
          OneFurther(g, from, cur, to);
          found' := found' + [to];
          queue' := queue' + [to];
        }
      }
    }
  }
}
