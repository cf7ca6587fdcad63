/** The validator's three-colour depth-first search (`graph.py`, `_has_cycle`).

    `colour` is the dictionary the nested `visit` closes over; a neighbour that is no key of
    the adjacency map is treated as white with no neighbours, as `dict.get` does. */
module CycleSearch {
  import opened Digraphs

  datatype Colour = White | Grey | Black

  function ColourIn<V(==)>(colour: map<V, Colour>, n: V): Colour {
    if n in colour then colour[n] else White
  }

  function NeighboursIn<V(==)>(adj: Adjacency<V>, n: V): seq<V> {
    if n in adj then adj[n] else []
  }

  /** Every node and every neighbour. */
  ghost function Universe<V(!new)>(adj: Adjacency<V>): set<V> {
    adj.Keys + set a, b | a in adj.Keys && b in adj[a] :: b
  }

  ghost function WhiteOnes<V(!new)>(adj: Adjacency<V>, colour: map<V, Colour>): set<V> {
    set n | n in Universe(adj) && ColourIn(colour, n) == White
  }

  /** Black nodes point only at nodes that finished before them, so no cycle runs through them. */
  ghost predicate FinishedWell<V(!new)>(adj: Adjacency<V>, colour: map<V, Colour>, finished: seq<V>) {
    && (forall n :: n in finished <==> ColourIn(colour, n) == Black)
    && (forall i, b :: 0 <= i < |finished| && b in NeighboursIn(adj, finished[i]) ==> b in finished[..i])
  }

  /** `stack` is the recursion: a path made of exactly the grey nodes. */
  ghost predicate OnStack<V(!new)>(adj: Adjacency<V>, colour: map<V, Colour>, stack: seq<V>) {
    && (forall n :: n in stack <==> ColourIn(colour, n) == Grey)
    && (stack != [] ==> IsPath(adj, stack))
  }

  lemma GreyNeighbourCloses<V(!new)>(adj: Adjacency<V>, colour: map<V, Colour>, stack: seq<V>, neighbour: V)
    requires OnStack(adj, colour, stack) && stack != [] && Edge(adj, stack[|stack| - 1], neighbour)
    requires ColourIn(colour, neighbour) == Grey
    ensures Cyclic(adj)
  {
    var i :| 0 <= i < |stack| && stack[i] == neighbour;
    RepeatClosesCycle(adj, stack + [neighbour], i, |stack|);
  }

  /** Turning a white node grey pushes it. */
  lemma Greyed<V(!new)>(adj: Adjacency<V>, colour: map<V, Colour>, finished: seq<V>, stack: seq<V>, node: V)
    requires FinishedWell(adj, colour, finished) && OnStack(adj, colour, stack)
    requires node in Universe(adj) && ColourIn(colour, node) == White
    requires stack != [] ==> Edge(adj, stack[|stack| - 1], node)
    ensures FinishedWell(adj, colour[node := Grey], finished) && OnStack(adj, colour[node := Grey], stack + [node])
    ensures WhiteOnes(adj, colour[node := Grey]) < WhiteOnes(adj, colour)
  {
    assert node in WhiteOnes(adj, colour) && node !in WhiteOnes(adj, colour[node := Grey]);
  }

  /** Turning the top of the stack black, once its neighbours are, pops it. */
  lemma Blackened<V(!new)>(adj: Adjacency<V>, colour: map<V, Colour>, finished: seq<V>, stack: seq<V>, node: V)
    requires FinishedWell(adj, colour, finished) && OnStack(adj, colour, stack + [node]) && node !in stack
    requires forall b :: b in NeighboursIn(adj, node) ==> b in finished
    ensures FinishedWell(adj, colour[node := Black], finished + [node]) && OnStack(adj, colour[node := Black], stack)
    ensures WhiteOnes(adj, colour[node := Black]) == WhiteOnes(adj, colour)
  {
    var after, longer := colour[node := Black], finished + [node];
    assert node in stack + [node];
    assert forall i :: 0 <= i < |stack| ==> (stack + [node])[i] == stack[i];
    assert longer[..|finished|] == finished;
    forall i, b | 0 <= i < |longer| && b in NeighboursIn(adj, longer[i]) ensures b in longer[..i] {
      assert i < |finished| ==> longer[..i] == finished[..i] && longer[i] == finished[i];
    }
    forall n ensures n in stack <==> ColourIn(after, n) == Grey {
      assert n in stack + [node] <==> n in stack || n == node;
    }
  }

  class Search<V(==, !new)> {
    const adjacency: Adjacency<V>
    var colour: map<V, Colour>
    /** Finished nodes, in the order they turned black. */
    ghost var finished: seq<V>

    constructor (adjacency: Adjacency<V>)
      ensures this.adjacency == adjacency && finished == []
      ensures colour == map n | n in adjacency :: White
    {
      this.adjacency := adjacency;
      colour := map n | n in adjacency :: White;
      finished := [];
    }

    method Visit(node: V, ghost stack: seq<V>) returns (found: bool)
      requires FinishedWell(adjacency, colour, finished) && OnStack(adjacency, colour, stack)
      requires node in Universe(adjacency) && ColourIn(colour, node) == White
      requires stack != [] ==> Edge(adjacency, stack[|stack| - 1], node)
      modifies this
      ensures found ==> Cyclic(adjacency)
      ensures !found ==> FinishedWell(adjacency, colour, finished) && OnStack(adjacency, colour, stack)
      ensures !found ==> ColourIn(colour, node) == Black && old(finished) <= finished
      ensures !found ==> WhiteOnes(adjacency, colour) < old(WhiteOnes(adjacency, colour))
      decreases WhiteOnes(adjacency, colour)
    {
      Greyed(adjacency, colour, finished, stack, node);
      colour := colour[node := Grey];
      var i := 0;
      while i < |NeighboursIn(adjacency, node)|
        invariant 0 <= i <= |NeighboursIn(adjacency, node)|
        invariant FinishedWell(adjacency, colour, finished) && OnStack(adjacency, colour, stack + [node])
        invariant WhiteOnes(adjacency, colour) < old(WhiteOnes(adjacency, colour)) && old(finished) <= finished
        invariant forall k :: 0 <= k < i ==> NeighboursIn(adjacency, node)[k] in finished
      {
        var neighbour := NeighboursIn(adjacency, node)[i];
        assert Edge(adjacency, (stack + [node])[|stack|], neighbour);
        var state := ColourIn(colour, neighbour);
        if state == Grey {
          GreyNeighbourCloses(adjacency, colour, stack + [node], neighbour);
          return true;
        }
        if state == White {
          var below := Visit(neighbour, stack + [node]);
          if below {
            return true;
          }
        }
        i := i + 1;
      }
      Blackened(adjacency, colour, finished, stack, node);
      colour := colour[node := Black];
      finished := finished + [node];
      found := false;
    }
  }

  ghost predicate DependencyOrder<V(!new)>(adj: Adjacency<V>, finished: seq<V>) {
    forall i, b :: 0 <= i < |finished| && Edge(adj, finished[i], b) ==> b in finished[..i]
  }

  ghost function FirstIndex<V>(s: seq<V>, x: V): (i: nat)
    requires x in s
    ensures i < |s| && s[i] == x && x !in s[..i]
  {
    if s[0] == x then 0 else 1 + FirstIndex(s[1..], x)
  }

  lemma {:induction false} PathDescends<V(!new)>(adj: Adjacency<V>, finished: seq<V>, p: seq<V>, k: nat)
    requires DependencyOrder(adj, finished) && IsPath(adj, p) && p[0] in finished && k < |p|
    ensures p[k] in finished && FirstIndex(finished, p[k]) + k <= FirstIndex(finished, p[0])
  {
    if k > 0 {
      PathDescends(adj, finished, p, k - 1);
      var i := FirstIndex(finished, p[k - 1]);
      assert Edge(adj, p[k - 1], p[k]);
      assert p[k] in finished[..i];
    }
  }

  /** All nodes finished in dependency order: the order itself is the proof of acyclicity. */
  lemma FinishOrderRefutesCycle<V(!new)>(adj: Adjacency<V>, finished: seq<V>)
    requires DependencyOrder(adj, finished) && forall n :: n in adj ==> n in finished
    ensures !Cyclic(adj)
  {
    forall n, p | PathBetween(adj, p, n, n) ensures false {
      assert Edge(adj, p[0], p[1]);
      PathDescends(adj, finished, p, |p| - 1);
    }
  }

  /** True exactly when some node has a nonempty directed path back to itself. */
  method HasCycle<V(==, !new)>(adjacency: Adjacency<V>) returns (found: bool)
    ensures found <==> Cyclic(adjacency)
  {
    var search := new Search(adjacency);
    assert FinishedWell(adjacency, search.colour, []) && OnStack(adjacency, search.colour, []);
    var remaining := adjacency.Keys;
    while remaining != {}
      invariant search.adjacency == adjacency && remaining <= adjacency.Keys && fresh(search)
      invariant FinishedWell(adjacency, search.colour, search.finished) && OnStack(adjacency, search.colour, [])
      invariant forall n :: n in adjacency && n !in remaining ==> n in search.finished
      decreases remaining
    {
      var node :| node in remaining;
      if ColourIn(search.colour, node) == White {
        var below := search.Visit(node, []);
        if below {
          return true;
        }
      }
      remaining := remaining - {node};
    }
    FinishOrderRefutesCycle(adjacency, search.finished);
    found := false;
  }
}
