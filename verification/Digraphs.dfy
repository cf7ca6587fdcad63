/** Finite directed graphs given by neighbour lists, with the three classical facts the
    workflow validator rests on: a finite set in which every node has a predecessor holds a
    cycle, an acyclic graph has a topological order, and a topological order rules cycles out. */
module Digraphs {
  import opened Sets

  type Adjacency<V(==)> = map<V, seq<V>>

  ghost predicate Edge<V>(adj: Adjacency<V>, a: V, b: V) {
    a in adj && b in adj[a]
  }

  ghost predicate IsPath<V>(adj: Adjacency<V>, p: seq<V>) {
    p != [] && forall i :: 0 <= i < |p| - 1 ==> Edge(adj, p[i], p[i + 1])
  }

  /** A path with at least one edge. */
  ghost predicate PathBetween<V>(adj: Adjacency<V>, p: seq<V>, a: V, b: V) {
    IsPath(adj, p) && |p| >= 2 && p[0] == a && p[|p| - 1] == b
  }

  ghost predicate Leads<V(!new)>(adj: Adjacency<V>, a: V, b: V) {
    exists p :: PathBetween(adj, p, a, b)
  }

  ghost predicate Cyclic<V(!new)>(adj: Adjacency<V>) {
    exists n :: Leads(adj, n, n)
  }

  ghost predicate Reachable<V(!new)>(adj: Adjacency<V>, a: V, b: V) {
    a == b || Leads(adj, a, b)
  }

  /** Every edge between members of the order runs forward in it. */
  ghost predicate IsTopologicalOrder<V(!new)>(adj: Adjacency<V>, nodes: set<V>, order: seq<V>) {
    && (forall n :: n in order <==> n in nodes)
    && (forall i, j :: 0 <= i < j < |order| ==> order[i] != order[j])
    && (forall i, j :: 0 <= i < |order| && 0 <= j < |order| && Edge(adj, order[i], order[j]) ==> i < j)
  }

  lemma SplicePaths<V>(adj: Adjacency<V>, p: seq<V>, a: V, b: V, q: seq<V>, c: V)
    requires PathBetween(adj, p, a, b) && IsPath(adj, q) && q[0] == b && q[|q| - 1] == c
    ensures PathBetween(adj, p + q[1..], a, c)
  {
  }

  lemma EdgeLeads<V(!new)>(adj: Adjacency<V>, a: V, b: V)
    requires Edge(adj, a, b)
    ensures Leads(adj, a, b)
  {
    assert PathBetween(adj, [a, b], a, b);
  }

  lemma LeadsOnward<V(!new)>(adj: Adjacency<V>, a: V, b: V, c: V)
    requires Reachable(adj, a, b) && Edge(adj, b, c)
    ensures Leads(adj, a, c)
  {
    EdgeLeads(adj, b, c);
    if a != b {
      var p :| PathBetween(adj, p, a, b);
      SplicePaths(adj, p, a, b, [b, c], c);
    }
  }

  /** Two visits to the same node along a path close a cycle. */
  lemma RepeatClosesCycle<V(!new)>(adj: Adjacency<V>, p: seq<V>, i: nat, j: nat)
    requires IsPath(adj, p) && i < j < |p| && p[i] == p[j]
    ensures Cyclic(adj)
  {
    assert PathBetween(adj, p[i..j + 1], p[i], p[i]);
    assert Leads(adj, p[i], p[i]);
  }

  lemma DistinctBounded<V>(s: set<V>, p: seq<V>)
    requires (forall i :: 0 <= i < |p| ==> p[i] in s) && Distinct(p)
    ensures |p| <= |s|
  {
    if p != [] {
      var last := p[|p| - 1];
      DistinctBounded(s - {last}, p[..|p| - 1]);
    }
  }

  lemma ExtendBack<V>(adj: Adjacency<V>, m: V, p: seq<V>)
    requires IsPath(adj, p) && Edge(adj, m, p[0])
    ensures IsPath(adj, [m] + p)
  {
  }

  /** Every member of `s` has a predecessor in `s`. */
  ghost predicate Sourceless<V(!new)>(adj: Adjacency<V>, s: set<V>) {
    forall n {:trigger HasPredecessor(adj, s, n)} | n in s :: HasPredecessor(adj, s, n)
  }

  ghost predicate HasPredecessor<V(!new)>(adj: Adjacency<V>, s: set<V>, n: V) {
    exists m :: m in s && Edge(adj, m, n)
  }

  /** Walking backwards for ever inside a finite set runs into a cycle. */
  lemma {:induction false} BackwardWalk<V(!new)>(adj: Adjacency<V>, s: set<V>, p: seq<V>)
    requires IsPath(adj, p) && (forall i :: 0 <= i < |p| ==> p[i] in s) && Sourceless(adj, s)
    ensures Cyclic(adj)
    decreases |s| + 1 - |p|
  {
    if Distinct(p) {
      DistinctBounded(s, p);
      assert HasPredecessor(adj, s, p[0]);
      var m :| m in s && Edge(adj, m, p[0]);
      ExtendBack(adj, m, p);
      BackwardWalk(adj, s, [m] + p);
    } else {
      var i, j :| 0 <= i < j < |p| && p[i] == p[j];
      RepeatClosesCycle(adj, p, i, j);
    }
  }

  lemma NoSourceMeansCycle<V(!new)>(adj: Adjacency<V>, s: set<V>)
    requires s != {} && Sourceless(adj, s)
    ensures Cyclic(adj)
  {
    var n :| n in s;
    BackwardWalk(adj, s, [n]);
  }

  /** Acyclic graphs can be sorted. */
  lemma {:induction false} AcyclicHasOrder<V(!new)>(adj: Adjacency<V>, nodes: set<V>) returns (order: seq<V>)
    requires !Cyclic(adj)
    ensures IsTopologicalOrder(adj, nodes, order)
    decreases |nodes|
  {
    if nodes == {} {
      order := [];
    } else {
      if Sourceless(adj, nodes) {
        NoSourceMeansCycle(adj, nodes);
      }
      var first :| first in nodes && !HasPredecessor(adj, nodes, first);
      var rest := AcyclicHasOrder(adj, nodes - {first});
      order := [first] + rest;
      assert forall i :: 0 <= i < |rest| ==> rest[i] in nodes - {first};
      assert forall m :: m in nodes ==> !Edge(adj, m, first);
      forall i, j | 0 <= i < |order| && 0 <= j < |order| && Edge(adj, order[i], order[j]) ensures i < j {
        assert order[i] in nodes;
        if i > 0 && j > 0 {
          assert order[i] == rest[i - 1] && order[j] == rest[j - 1];
        }
      }
    }
  }

  /** If every node but the root has an incoming edge and nothing cycles, the root reaches all. */
  lemma RootReachesAll<V(!new)>(adj: Adjacency<V>, nodes: set<V>, root: V)
    requires !Cyclic(adj) && root in nodes
    requires forall n {:trigger HasPredecessor(adj, nodes, n)} | n in nodes && n != root :: HasPredecessor(adj, nodes, n)
    ensures forall n | n in nodes :: Reachable(adj, root, n)
  {
    var lost := set n | n in nodes && !Reachable(adj, root, n);
    assert forall n | n in nodes :: n !in lost ==> Reachable(adj, root, n);
    if lost != {} {
      forall n | n in lost ensures HasPredecessor(adj, lost, n) {
        assert HasPredecessor(adj, nodes, n);
        var m :| m in nodes && Edge(adj, m, n);
        if Reachable(adj, root, m) {
          LeadsOnward(adj, root, m, n);
        }
      }
      NoSourceMeansCycle(adj, lost);
    }
  }
}
