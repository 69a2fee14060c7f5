/** The mathematics behind edge collapsing: which nodes may be merged at, what a maximal run of such
    nodes looks like, and why one run's edges never meet another's. */
module MergeChains {
  import opened TileHierarchy
  import opened Wrappers
  import opened RoadGraph

  /** The two caller-supplied predicates: may the edge be merged over, may it be on a path at all. */
  datatype Rules = Rules(merges: DirectedEdge -> bool, allowed: DirectedEdge -> bool)

  function Allowed(g: Graph, rules: Rules, es: seq<GraphId>): (r: seq<GraphId>)
    requires AllValid(g, es)
    ensures forall e :: e in r <==> e in es && rules.allowed(Edge(g, e))
  {
    if es == [] then []
    else (if rules.allowed(Edge(g, es[0])) then [es[0]] else []) + Allowed(g, rules, es[1..])
  }

  /** The ends of the two edges `all`, when no edge of `es` forbids merging and those two ends differ. */
  function EndsOfTwo(g: Graph, rules: Rules, es: seq<GraphId>, all: seq<GraphId>): Option<(GraphId, GraphId)>
    requires AllValid(g, es) && AllValid(g, all)
  {
    if (forall e | e in es :: rules.merges(Edge(g, e))) && |all| == 2 && End(g, all[0]) != End(g, all[1])
    then Some((End(g, all[0]), End(g, all[1]))) else None
  }

  /** The ends of the only two allowed edges of `es`. */
  function TwoEnds(g: Graph, rules: Rules, es: seq<GraphId>): Option<(GraphId, GraphId)>
    requires AllValid(g, es)
  {
    EndsOfTwo(g, rules, es, Allowed(g, rules, es))
  }

  /** The loop over the edges of a node: `first` and `second` are what it has found so far, and it
      leaves at the first reason to give up. */
  function ScanEdges(g: Graph, rules: Rules, es: seq<GraphId>, first: Option<GraphId>, second: Option<GraphId>):
      Option<(GraphId, GraphId)>
    requires AllValid(g, es)
    decreases es
  {
    if es == [] then
      if first.Some? && second.Some? then Some((first.value, second.value)) else None
    else
      var edge := Edge(g, es[0]);
      if !rules.merges(edge) then None
      else if !rules.allowed(edge) then ScanEdges(g, rules, es[1..], first, second)
      else if first == Some(edge.endnode) || second == Some(edge.endnode) then None
      else if first.None? then ScanEdges(g, rules, es[1..], Some(edge.endnode), second)
      else if second.None? then ScanEdges(g, rules, es[1..], first, Some(edge.endnode))
      else None
  }

  lemma EndsOfTwoWithout(g: Graph, rules: Rules, es: seq<GraphId>, all: seq<GraphId>)
    requires AllValid(g, es) && AllValid(g, all) && es != []
    ensures !rules.merges(Edge(g, es[0])) ==> EndsOfTwo(g, rules, es, all) == None
    ensures rules.merges(Edge(g, es[0])) ==> EndsOfTwo(g, rules, es, all) == EndsOfTwo(g, rules, es[1..], all)
  {
    assert forall e | e in es :: e == es[0] || e in es[1..];
  }

  lemma EndsOfTwoAtEnd(g: Graph, rules: Rules, all: seq<GraphId>)
    requires AllValid(g, all)
    ensures EndsOfTwo(g, rules, [], all) ==
            if |all| == 2 && End(g, all[0]) != End(g, all[1]) then Some((End(g, all[0]), End(g, all[1]))) else None
  {
  }

  lemma NotTwoEnds(g: Graph, rules: Rules, es: seq<GraphId>, all: seq<GraphId>)
    requires AllValid(g, es) && AllValid(g, all) && (|all| != 2 || End(g, all[0]) == End(g, all[1]))
    ensures EndsOfTwo(g, rules, es, all) == None
  {
  }

  /** What the scan still finds when it has kept the allowed edges `kept` so far. */
  lemma {:induction false} ScanFindsTwoEnds(g: Graph, rules: Rules, es: seq<GraphId>, kept: seq<GraphId>)
    requires AllValid(g, es) && AllValid(g, kept) && |kept| <= 2
    requires |kept| == 2 ==> End(g, kept[0]) != End(g, kept[1])
    ensures var first := if |kept| >= 1 then Some(End(g, kept[0])) else None;
            var second := if |kept| == 2 then Some(End(g, kept[1])) else None;
            ScanEdges(g, rules, es, first, second) == EndsOfTwo(g, rules, es, kept + Allowed(g, rules, es))
    decreases es
  {
    hide EndsOfTwo;
    var all := kept + Allowed(g, rules, es);
    if es == [] {
      EndsOfTwoAtEnd(g, rules, all);
    } else {
      var edge := Edge(g, es[0]);
      var rest := es[1..];
      EndsOfTwoWithout(g, rules, es, all);
      if rules.merges(edge) {
        if !rules.allowed(edge) {
          assert all == kept + Allowed(g, rules, rest);
          ScanFindsTwoEnds(g, rules, rest, kept);
        } else {
          assert all == (kept + [es[0]]) + Allowed(g, rules, rest);
          if |kept| == 0 || (|kept| == 1 && End(g, kept[0]) != edge.endnode) {
            ScanFindsTwoEnds(g, rules, rest, kept + [es[0]]);
          } else {
            NotTwoEnds(g, rules, es, all);
          }
        }
      }
    }
  }

  /** The only two nodes reachable from `n`, when merging at `n` is possible. */
  function Neighbours(g: Graph, rules: Rules, n: GraphId): Option<(GraphId, GraphId)>
    requires WellFormed(g)
  {
    if !ValidNode(g, n) then None
    else OutEdgesValid(g, n); TwoEnds(g, rules, OutEdges(g, n))
  }

  ghost predicate Mergeable(g: Graph, rules: Rules, n: GraphId)
    requires WellFormed(g)
  {
    Neighbours(g, rules, n).Some?
  }

  function FirstTo(g: Graph, rules: Rules, es: seq<GraphId>, b: GraphId): (r: Option<GraphId>)
    requires AllValid(g, es)
    ensures r.Some? ==> r.value in es && End(g, r.value) == b && rules.allowed(Edge(g, r.value))
    ensures r.None? ==> forall e | e in es && rules.allowed(Edge(g, e)) :: End(g, e) != b
  {
    if es == [] then None
    else if End(g, es[0]) == b && rules.allowed(Edge(g, es[0])) then Some(es[0])
    else FirstTo(g, rules, es[1..], b)
  }

  /** The first allowed edge from `a` to `b`. */
  function EdgeBetween(g: Graph, rules: Rules, a: GraphId, b: GraphId): Option<GraphId>
    requires WellFormed(g)
  {
    if !ValidNode(g, a) then None
    else OutEdgesValid(g, a); FirstTo(g, rules, OutEdges(g, a), b)
  }

  /** Both halves of a road that stays inside the tile set are allowed or neither is. */
  ghost predicate Symmetric(g: Graph, rules: Rules)
    requires WellFormed(g)
  {
    forall e | ValidEdge(g, e) && rules.allowed(Edge(g, e)) && End(g, e).tile in g ::
      Opposing(g, e).Some? && rules.allowed(Edge(g, Opposing(g, e).value))
  }

  ghost predicate Joins(ns: Option<(GraphId, GraphId)>, a: GraphId, b: GraphId) {
    a != b && (ns == Some((a, b)) || ns == Some((b, a)))
  }

  lemma TwoEdgesTwoEnds(g: Graph, rules: Rules, es: seq<GraphId>, e: GraphId)
    requires AllValid(g, es) && e in es && rules.allowed(Edge(g, e))
    requires var allowed := Allowed(g, rules, es);
             |allowed| == 2 && End(g, allowed[0]) != End(g, allowed[1])
    ensures FirstTo(g, rules, es, End(g, e)) == Some(e)
    ensures var allowed := Allowed(g, rules, es); End(g, e) == End(g, allowed[0]) || End(g, e) == End(g, allowed[1])
  {
    var allowed := Allowed(g, rules, es);
    assert e in allowed;
    var f := FirstTo(g, rules, es, End(g, e));
    assert f.Some? && f.value in allowed;
  }

  /** Where merging is possible an allowed edge is determined by the node it leads to. */
  lemma LeavingEdgeIsTheEdgeBetween(g: Graph, rules: Rules, e: GraphId)
    requires WellFormed(g) && ValidEdge(g, e) && rules.allowed(Edge(g, e))
    requires Mergeable(g, rules, Start(g, e))
    ensures EdgeBetween(g, rules, Start(g, e), End(g, e)) == Some(e)
    ensures var ns := Neighbours(g, rules, Start(g, e)).value; End(g, e) == ns.0 || End(g, e) == ns.1
  {
    var n := Start(g, e);
    OutEdgesValid(g, n);
    TwoEdgesTwoEnds(g, rules, OutEdges(g, n), e);
  }

  lemma EdgeBetweenLeads(g: Graph, rules: Rules, a: GraphId, b: GraphId)
    requires WellFormed(g) && EdgeBetween(g, rules, a, b).Some?
    ensures var e := EdgeBetween(g, rules, a, b).value;
            ValidEdge(g, e) && rules.allowed(Edge(g, e)) && Start(g, e) == a && End(g, e) == b
  {
    OutEdgesValid(g, a);
    StartIsUnique(g, EdgeBetween(g, rules, a, b).value, a);
  }

  lemma NeighbourHasEdge(g: Graph, rules: Rules, n: GraphId, a: GraphId, b: GraphId)
    requires WellFormed(g) && Joins(Neighbours(g, rules, n), a, b)
    ensures EdgeBetween(g, rules, n, a).Some? && EdgeBetween(g, rules, n, b).Some?
  {
    OutEdgesValid(g, n);
    var allowed := Allowed(g, rules, OutEdges(g, n));
    assert allowed[0] in allowed && allowed[1] in allowed;
  }

  /** The way back: between a mergeable node and a present neighbour there is one road, whose two
      halves are each other's opposing edges; and a mergeable node is not its own neighbour. */
  lemma WayBack(g: Graph, rules: Rules, n: GraphId, a: GraphId, b: GraphId)
    requires WellFormed(g) && Symmetric(g, rules) && Joins(Neighbours(g, rules, n), a, b)
    ensures EdgeBetween(g, rules, n, a).Some?
    ensures a != n
    ensures a.tile in g ==>
              EdgeBetween(g, rules, a, n) == Opposing(g, EdgeBetween(g, rules, n, a).value)
              && EdgeBetween(g, rules, a, n).Some?
    ensures a.tile !in g ==> EdgeBetween(g, rules, a, n).None?
  {
    NeighbourHasEdge(g, rules, n, a, b);
    EdgeBetweenLeads(g, rules, n, a);
    var x := EdgeBetween(g, rules, n, a).value;
    if a.tile in g {
      OpposingTurnsAround(g, x);
      var o := Opposing(g, x).value;
      OutEdgesValid(g, a);
      assert o in OutEdges(g, a);
      var back := EdgeBetween(g, rules, a, n);
      assert back.Some?;
      EdgeBetweenLeads(g, rules, a, n);
      OpposingTurnsAround(g, back.value);
      LeavingEdgeIsTheEdgeBetween(g, rules, Opposing(g, back.value).value);
      if a == n {
        LeavingEdgeIsTheEdgeBetween(g, rules, o);
      }
    }
  }

  /** Neighbourhood between mergeable nodes is mutual. */
  lemma Mutual(g: Graph, rules: Rules, n: GraphId, a: GraphId, b: GraphId)
    requires WellFormed(g) && Symmetric(g, rules) && Joins(Neighbours(g, rules, n), a, b)
    requires Mergeable(g, rules, a)
    ensures Neighbours(g, rules, a).value.0 == n || Neighbours(g, rules, a).value.1 == n
  {
    WayBack(g, rules, n, a, b);
    EdgeBetweenLeads(g, rules, a, n);
    LeavingEdgeIsTheEdgeBetween(g, rules, EdgeBetween(g, rules, a, n).value);
  }

  // ---------------------------------------------------------------------------------------------
  // Chains

  predicate Interior(us: seq<GraphId>, i: int) {
    0 < i < |us| - 1
  }

  /** A run of nodes: every interior node is mergeable, its neighbours are the nodes beside it, and it
      occurs only once. The two ends may be the same node. */
  ghost predicate Chain(g: Graph, rules: Rules, us: seq<GraphId>)
    requires WellFormed(g)
  {
    && 3 <= |us|
    && (forall i | Interior(us, i) :: Joins(Neighbours(g, rules, us[i]), us[i - 1], us[i + 1]))
    && (forall i, j | Interior(us, i) && 0 <= j < |us| && i != j :: us[i] != us[j])
  }

  /** The scan from the start finds the two ends. */
  lemma ScanIsTwoEnds(g: Graph, rules: Rules, es: seq<GraphId>)
    requires AllValid(g, es)
    ensures ScanEdges(g, rules, es, None, None) == TwoEnds(g, rules, es)
  {
    hide EndsOfTwo, ScanEdges;
    ScanFindsTwoEnds(g, rules, es, []);
    assert [] + Allowed(g, rules, es) == Allowed(g, rules, es);
  }

  function Reversed(us: seq<GraphId>): (r: seq<GraphId>)
    ensures |r| == |us|
  {
    seq(|us|, i requires 0 <= i < |us| => us[|us| - 1 - i])
  }

  lemma ReversedEnds(us: seq<GraphId>)
    requires 2 <= |us|
    ensures var r := Reversed(us); r[0] == us[|us| - 1] && r[1] == us[|us| - 2] && r[|us| - 1] == us[0]
  {
  }

  lemma ReversedChain(g: Graph, rules: Rules, us: seq<GraphId>)
    requires WellFormed(g) && Chain(g, rules, us)
    ensures Chain(g, rules, Reversed(us)) && Reversed(Reversed(us)) == us
  {
    var r := Reversed(us);
    forall i | Interior(r, i)
      ensures Joins(Neighbours(g, rules, r[i]), r[i - 1], r[i + 1])
    {
      assert Interior(us, |us| - 1 - i);
    }
    forall i, j | Interior(r, i) && 0 <= j < |r| && i != j
      ensures r[i] != r[j]
    {
      assert Interior(us, |us| - 1 - i);
    }
  }

  /** No rho: a chain that goes on never runs into its own interior. Its last node was new, so the one
      way into an interior node other than along the chain does not exist. */
  lemma ExtendChain(g: Graph, rules: Rules, us: seq<GraphId>, next: GraphId)
    requires WellFormed(g) && Symmetric(g, rules) && Chain(g, rules, us)
    requires var cur := us[|us| - 1];
             cur != us[0] && Joins(Neighbours(g, rules, cur), us[|us| - 2], next)
    ensures Chain(g, rules, us + [next])
  {
    hide Neighbours, WellFormed, Symmetric, EdgeBetween;
    var cur := us[|us| - 1];
    var vs := us + [next];
    WayBack(g, rules, cur, next, us[|us| - 2]);
    forall j | Interior(us, j)
      ensures next != us[j]
    {
      if next == us[j] {
        assert Joins(Neighbours(g, rules, us[j]), us[j - 1], us[j + 1]);
        Mutual(g, rules, cur, next, us[|us| - 2]);
      }
    }
    forall i | Interior(vs, i)
      ensures Joins(Neighbours(g, rules, vs[i]), vs[i - 1], vs[i + 1])
    {
      assert Interior(us, i) || i == |us| - 1;
    }
    forall i, j | Interior(vs, i) && 0 <= j < |vs| && i != j
      ensures vs[i] != vs[j]
    {
      if Interior(us, i) {
      } else {
        assert i == |us| - 1;
        assert j < |us| - 1 ==> j == 0 || Interior(us, j);
      }
    }
  }

  /** The end of a chain: its last step can be taken, the step back exists exactly when the last node's
      tile does, and a mergeable last node has the node before it as a neighbour. */
  lemma ChainTail(g: Graph, rules: Rules, us: seq<GraphId>)
    requires WellFormed(g) && Symmetric(g, rules) && Chain(g, rules, us)
    ensures 3 <= |us|
    ensures var prev, cur := us[|us| - 2], us[|us| - 1];
            && ValidNode(g, prev) && EdgeBetween(g, rules, prev, cur).Some?
            && (EdgeBetween(g, rules, cur, prev).Some? <==> ValidNode(g, cur))
            && (Mergeable(g, rules, cur) ==> ValidNode(g, cur))
            && (Mergeable(g, rules, cur) ==>
                  var ns := Neighbours(g, rules, cur).value; ns.0 == prev || ns.1 == prev)
  {
    var n, prev, cur := |us|, us[|us| - 2], us[|us| - 1];
    assert Interior(us, n - 2);
    assert Joins(Neighbours(g, rules, prev), us[n - 3], cur);
    WayBack(g, rules, prev, cur, us[n - 3]);
    EdgeBetweenLeads(g, rules, prev, cur);
    if Mergeable(g, rules, cur) {
      Mutual(g, rules, prev, cur, us[n - 3]);
    }
  }

  /** A chain whose last node is its first and mergeable can only go on to its second node: the run
      from there on is a closed loop. */
  lemma CloseLoop(g: Graph, rules: Rules, us: seq<GraphId>, next: GraphId)
    requires WellFormed(g) && Symmetric(g, rules) && Chain(g, rules, us)
    requires us[|us| - 1] == us[0] && Joins(Neighbours(g, rules, us[0]), us[|us| - 2], next)
    ensures next == us[1] && Complete(g, rules, us[1..] + [next])
  {
    hide Neighbours, WellFormed, Symmetric;
    assert Interior(us, 1) && Interior(us, |us| - 2);
    assert Joins(Neighbours(g, rules, us[1]), us[0], us[2]);
    Mutual(g, rules, us[1], us[0], us[2]);
    assert |us| > 3;
    var c := us[1..] + [next];
    forall i | Interior(c, i)
      ensures Joins(Neighbours(g, rules, c[i]), c[i - 1], c[i + 1])
    {
      assert Interior(us, i + 1) || i + 1 == |us| - 1;
    }
    forall i, j | Interior(c, i) && 0 <= j < |c| && i != j
      ensures c[i] != c[j]
    {
      var j' := if j == |c| - 1 then 1 else j + 1;
      assert c[j] == us[j'];
      assert Interior(us, i + 1) || i + 1 == |us| - 1;
      assert Interior(us, j') || j' == |us| - 1;
    }
  }

  /** The edges that lead along a run of nodes; a step out of a missing tile has none. */
  function Along(g: Graph, rules: Rules, us: seq<GraphId>): seq<GraphId>
    requires WellFormed(g)
  {
    if |us| < 2 then []
    else Step(g, rules, us[0], us[1]) + Along(g, rules, us[1..])
  }

  function Step(g: Graph, rules: Rules, a: GraphId, b: GraphId): seq<GraphId>
    requires WellFormed(g)
  {
    match EdgeBetween(g, rules, a, b)
    case Some(e) => [e]
    case None => []
  }

  lemma ReversedAppend(us: seq<GraphId>, next: GraphId)
    ensures Reversed(us + [next]) == [next] + Reversed(us) && Reversed(us + [next])[1..] == Reversed(us)
    ensures us != [] ==> Reversed(us)[0] == us[|us| - 1]
  {
  }

  lemma {:induction false} AlongAppend(g: Graph, rules: Rules, us: seq<GraphId>, next: GraphId)
    requires WellFormed(g) && us != []
    ensures Along(g, rules, us + [next]) == Along(g, rules, us) + Step(g, rules, us[|us| - 1], next)
    ensures Along(g, rules, Reversed(us + [next])) ==
            Step(g, rules, next, us[|us| - 1]) + Along(g, rules, Reversed(us))
  {
    hide WellFormed, Step, Reversed;
    var vs := us + [next];
    ReversedAppend(us, next);
    if |us| == 1 {
      assert vs[1..] == [next];
    } else {
      assert vs[1..] == us[1..] + [next];
      AlongAppend(g, rules, us[1..], next);
    }
  }

  ghost function EdgesOf(g: Graph, rules: Rules, c: seq<GraphId>): set<GraphId>
    requires WellFormed(g)
  {
    (set e | e in Along(g, rules, c)) + (set e | e in Along(g, rules, Reversed(c)))
  }

  /** The at most two halves of the road between `a` and `b`. */
  ghost function RoadOf(g: Graph, rules: Rules, a: GraphId, b: GraphId): set<GraphId>
    requires WellFormed(g)
  {
    (set e | e in Step(g, rules, a, b)) + (set e | e in Step(g, rules, b, a))
  }

  lemma EdgesOfAppend(g: Graph, rules: Rules, us: seq<GraphId>, next: GraphId)
    requires WellFormed(g) && us != []
    ensures Along(g, rules, us + [next]) == Along(g, rules, us) + Step(g, rules, us[|us| - 1], next)
    ensures Along(g, rules, Reversed(us + [next])) ==
            Step(g, rules, next, us[|us| - 1]) + Along(g, rules, Reversed(us))
    ensures EdgesOf(g, rules, us + [next]) == EdgesOf(g, rules, us) + RoadOf(g, rules, us[|us| - 1], next)
  {
    AlongAppend(g, rules, us, next);
  }

  lemma NoEdgesAtOneNode(g: Graph, rules: Rules, n: GraphId)
    requires WellFormed(g)
    ensures Along(g, rules, [n]) == [] && Along(g, rules, Reversed([n])) == [] && EdgesOf(g, rules, [n]) == {}
  {
    assert Reversed([n]) == [n];
  }

  ghost function InteriorNodes(us: seq<GraphId>): set<GraphId> {
    set i | 0 < i < |us| - 1 :: us[i]
  }

  /** One more step of the walk that set out from us[k]: it is back there exactly when the chain closes
      into a loop, and otherwise the chain has grown by a node it did not have. */
  lemma WalkGoesOn(g: Graph, rules: Rules, us: seq<GraphId>, k: nat, next: GraphId)
    requires WellFormed(g) && Symmetric(g, rules) && Chain(g, rules, us) && Interior(us, k)
    requires Mergeable(g, rules, us[0]) ==> k == 1
    requires Joins(Neighbours(g, rules, us[|us| - 1]), us[|us| - 2], next)
    ensures next == us[k] ==> k == 1 && Mergeable(g, rules, us[0]) && Complete(g, rules, us[1..] + [next])
    ensures next != us[k] ==> Chain(g, rules, us + [next])
    ensures EdgeBetween(g, rules, us[|us| - 1], next).Some?
    ensures ValidNode(g, next) ==> EdgeBetween(g, rules, next, us[|us| - 1]).Some?
    ensures InteriorNodes(us + [next]) == InteriorNodes(us) + {us[|us| - 1]}
    ensures us[|us| - 1] !in InteriorNodes(us)
  {
    hide Neighbours, WellFormed, Symmetric, EdgeBetween;
    WayBack(g, rules, us[|us| - 1], next, us[|us| - 2]);
    var vs := us + [next];
    if us[|us| - 1] == us[0] {
      CloseLoop(g, rules, us, next);
    } else {
      ExtendChain(g, rules, us, next);
      assert Interior(vs, k) && vs[k] != vs[|vs| - 1];
    }
    forall n | n in InteriorNodes(us) + {us[|us| - 1]}
      ensures n in InteriorNodes(vs)
    {
      var i :| 0 < i < |us| && n == us[i];
      assert vs[i] == n;
    }
    assert forall i | 0 < i < |us| - 1 :: Interior(us, i);
  }

  lemma {:induction false} AlongMember(g: Graph, rules: Rules, us: seq<GraphId>, e: GraphId) returns (i: nat)
    requires WellFormed(g) && e in Along(g, rules, us)
    ensures i + 1 < |us| && EdgeBetween(g, rules, us[i], us[i + 1]) == Some(e)
  {
    if EdgeBetween(g, rules, us[0], us[1]) == Some(e) {
      i := 0;
    } else {
      i := AlongMember(g, rules, us[1..], e);
      i := i + 1;
    }
  }

  lemma {:induction false} AlongHas(g: Graph, rules: Rules, us: seq<GraphId>, i: nat)
    requires WellFormed(g) && i + 1 < |us| && EdgeBetween(g, rules, us[i], us[i + 1]).Some?
    ensures EdgeBetween(g, rules, us[i], us[i + 1]).value in Along(g, rules, us)
  {
    if i > 0 {
      AlongHas(g, rules, us[1..], i - 1);
    }
  }

  // ---------------------------------------------------------------------------------------------
  // Complete chains

  /** A chain that cannot be continued: neither end is mergeable, or it closes into a loop. */
  ghost predicate Complete(g: Graph, rules: Rules, c: seq<GraphId>)
    requires WellFormed(g)
  {
    && Chain(g, rules, c)
    && (|| (!Mergeable(g, rules, c[0]) && !Mergeable(g, rules, c[|c| - 1]))
        || (c[0] == c[|c| - 1] && Joins(Neighbours(g, rules, c[0]), c[1], c[|c| - 2])))
  }

  lemma BetweenConsecutive(g: Graph, rules: Rules, c: seq<GraphId>, e: GraphId) returns (i: nat)
    requires WellFormed(g) && Chain(g, rules, c) && e in EdgesOf(g, rules, c)
    ensures i + 1 < |c|
    ensures EdgeBetween(g, rules, c[i], c[i + 1]) == Some(e) || EdgeBetween(g, rules, c[i + 1], c[i]) == Some(e)
    ensures ValidEdge(g, e) && rules.allowed(Edge(g, e))
  {
    hide WellFormed, Neighbours, EdgeBetween, Along;
    if e in Along(g, rules, c) {
      i := AlongMember(g, rules, c, e);
      EdgeBetweenLeads(g, rules, c[i], c[i + 1]);
    } else {
      i := AlongMember(g, rules, Reversed(c), e);
      i := |c| - 2 - i;
      EdgeBetweenLeads(g, rules, c[i + 1], c[i]);
    }
  }

  lemma ConsecutiveIsMember(g: Graph, rules: Rules, c: seq<GraphId>, i: nat)
    requires WellFormed(g) && i + 1 < |c|
    ensures EdgeBetween(g, rules, c[i], c[i + 1]).Some? ==>
              EdgeBetween(g, rules, c[i], c[i + 1]).value in EdgesOf(g, rules, c)
    ensures EdgeBetween(g, rules, c[i + 1], c[i]).Some? ==>
              EdgeBetween(g, rules, c[i + 1], c[i]).value in EdgesOf(g, rules, c)
  {
    hide WellFormed, EdgeBetween, Along;
    if EdgeBetween(g, rules, c[i], c[i + 1]).Some? {
      AlongHas(g, rules, c, i);
    }
    if EdgeBetween(g, rules, c[i + 1], c[i]).Some? {
      AlongHas(g, rules, Reversed(c), |c| - 2 - i);
    }
  }

  lemma {:induction false} AlongConnects(g: Graph, rules: Rules, us: seq<GraphId>)
    requires WellFormed(g) && us != []
    requires forall i | 0 <= i < |us| - 1 :: EdgeBetween(g, rules, us[i], us[i + 1]).Some?
    ensures Connects(g, us[0], Along(g, rules, us), us[|us| - 1])
  {
    hide WellFormed, EdgeBetween;
    if |us| > 1 {
      var rest := us[1..];
      forall i | 0 <= i < |rest| - 1
        ensures EdgeBetween(g, rules, rest[i], rest[i + 1]).Some?
      {
        assert rest[i] == us[i + 1] && rest[i + 1] == us[i + 2];
      }
      AlongConnects(g, rules, rest);
      EdgeBetweenLeads(g, rules, us[0], us[1]);
      assert Along(g, rules, us)[1..] == Along(g, rules, us[1..]);
    }
  }

  /** Where the path along a chain starts: at the first node whose tile is there. */
  function PathStart(g: Graph, c: seq<GraphId>): GraphId
    requires |c| >= 2
  {
    if ValidNode(g, c[0]) then c[0] else c[1]
  }

  lemma ChainConnects(g: Graph, rules: Rules, c: seq<GraphId>)
    requires WellFormed(g) && Symmetric(g, rules) && Chain(g, rules, c)
    requires c[0].tile in g ==> ValidNode(g, c[0])
    ensures Connects(g, PathStart(g, c), Along(g, rules, c), c[|c| - 1])
  {
    hide WellFormed, EdgeBetween, Neighbours, Symmetric;
    forall i | 0 < i < |c| - 1
      ensures EdgeBetween(g, rules, c[i], c[i + 1]).Some?
    {
      assert Interior(c, i);
      NeighbourHasEdge(g, rules, c[i], c[i - 1], c[i + 1]);
    }
    assert Interior(c, 1);
    WayBack(g, rules, c[1], c[0], c[2]);
    if ValidNode(g, c[0]) {
      AlongConnects(g, rules, c);
    } else {
      AlongConnects(g, rules, c[1..]);
      assert Along(g, rules, c) == Along(g, rules, c[1..]);
    }
  }

  predicate Distinct(es: seq<GraphId>) {
    forall i, j | 0 <= i < j < |es| :: es[i] != es[j]
  }

  lemma DistinctConcat(es: seq<GraphId>, fs: seq<GraphId>)
    requires Distinct(es) && Distinct(fs) && forall e | e in es :: e !in fs
    ensures Distinct(es + fs)
  {
    var all := es + fs;
    forall i, j | 0 <= i < j < |all|
      ensures all[i] != all[j]
    {
      assert i < |es| ==> all[i] in es;
      assert j >= |es| ==> all[j] in fs;
    }
  }

  /** No two steps of the run are the same ordered pair of nodes. */
  ghost predicate DistinctSteps(us: seq<GraphId>) {
    forall i, j | 0 <= i < j < |us| - 1 :: us[i] != us[j] || us[i + 1] != us[j + 1]
  }

  lemma DistinctAfterFirst(us: seq<GraphId>)
    requires DistinctSteps(us) && us != []
    ensures DistinctSteps(us[1..])
  {
    var rest := us[1..];
    forall i, j | 0 <= i < j < |rest| - 1
      ensures rest[i] != rest[j] || rest[i + 1] != rest[j + 1]
    {
      assert us[i + 1] != us[j + 1] || us[i + 2] != us[j + 2];
    }
  }

  lemma FirstStepOnce(us: seq<GraphId>, i: nat)
    requires DistinctSteps(us) && 0 < i < |us| - 1
    ensures us[0] != us[i] || us[1] != us[i + 1]
  {
  }

  lemma {:induction false} AlongDistinct(g: Graph, rules: Rules, us: seq<GraphId>)
    requires WellFormed(g) && DistinctSteps(us)
    ensures Distinct(Along(g, rules, us))
  {
    hide EdgeBetween, WellFormed, DistinctSteps;
    if |us| >= 2 {
      var rest := us[1..];
      DistinctAfterFirst(us);
      AlongDistinct(g, rules, rest);
      var first := EdgeBetween(g, rules, us[0], us[1]);
      if first.Some? && first.value in Along(g, rules, rest) {
        var i := AlongMember(g, rules, rest, first.value);
        EdgeBetweenLeads(g, rules, us[0], us[1]);
        EdgeBetweenLeads(g, rules, us[i + 1], us[i + 2]);
        FirstStepOnce(us, i + 1);
      }
    }
  }

  lemma StepsOfChain(g: Graph, rules: Rules, c: seq<GraphId>, i: nat, j: nat)
    requires WellFormed(g) && Chain(g, rules, c) && i + 1 < |c| && j + 1 < |c|
    ensures i < j ==> c[i] != c[j] || c[i + 1] != c[j + 1]
    ensures c[i] != c[j + 1] || c[i + 1] != c[j]
  {
    hide Neighbours, WellFormed;
    assert Interior(c, 1) && Interior(c, |c| - 2);
    assert Interior(c, i) || i == 0;
    assert Interior(c, j) || j == 0;
    assert Interior(c, i + 1) || i + 1 == |c| - 1;
    assert Interior(c, j + 1) || j + 1 == |c| - 1;
    if 0 < i {
      assert Joins(Neighbours(g, rules, c[i]), c[i - 1], c[i + 1]);
    }
    if 0 < j {
      assert Joins(Neighbours(g, rules, c[j]), c[j - 1], c[j + 1]);
    }
  }

  lemma ChainStepsDistinct(g: Graph, rules: Rules, c: seq<GraphId>)
    requires WellFormed(g) && Chain(g, rules, c)
    ensures DistinctSteps(c)
  {
    hide Chain, WellFormed;
    forall i, j | 0 <= i < j < |c| - 1
      ensures c[i] != c[j] || c[i + 1] != c[j + 1]
    {
      StepsOfChain(g, rules, c, i, j);
    }
  }

  lemma DirectionsDisjoint(g: Graph, rules: Rules, c: seq<GraphId>, e: GraphId)
    requires WellFormed(g) && Chain(g, rules, c) && e in Along(g, rules, c)
    ensures e !in Along(g, rules, Reversed(c))
  {
    hide Chain, WellFormed, EdgeBetween, Along;
    var r := Reversed(c);
    if e in Along(g, rules, r) {
      var i := AlongMember(g, rules, c, e);
      var k := AlongMember(g, rules, r, e);
      EdgeBetweenLeads(g, rules, c[i], c[i + 1]);
      EdgeBetweenLeads(g, rules, r[k], r[k + 1]);
      StepsOfChain(g, rules, c, i, |c| - 2 - k);
    }
  }

  /** The two paths of one chain use every edge at most once. */
  lemma ChainEdgesDistinct(g: Graph, rules: Rules, c: seq<GraphId>)
    requires WellFormed(g) && Chain(g, rules, c)
    ensures Distinct(Along(g, rules, c) + Along(g, rules, Reversed(c)))
  {
    hide Chain, WellFormed, EdgeBetween, Along;
    ReversedChain(g, rules, c);
    ChainStepsDistinct(g, rules, c);
    ChainStepsDistinct(g, rules, Reversed(c));
    AlongDistinct(g, rules, c);
    AlongDistinct(g, rules, Reversed(c));
    forall e | e in Along(g, rules, c)
      ensures e !in Along(g, rules, Reversed(c))
    {
      DirectionsDisjoint(g, rules, c, e);
    }
    DistinctConcat(Along(g, rules, c), Along(g, rules, Reversed(c)));
  }

  ghost predicate Incident(g: Graph, rules: Rules, e: GraphId, n: GraphId)
    requires WellFormed(g)
  {
    ValidEdge(g, e) && rules.allowed(Edge(g, e)) && (Start(g, e) == n || End(g, e) == n)
  }

  lemma IncidentAtMergeable(g: Graph, rules: Rules, e: GraphId, n: GraphId, a: GraphId, b: GraphId)
    requires WellFormed(g) && Symmetric(g, rules) && Incident(g, rules, e, n)
    requires Joins(Neighbours(g, rules, n), a, b)
    ensures exists m :: (m == a || m == b)
              && (EdgeBetween(g, rules, n, m) == Some(e) || EdgeBetween(g, rules, m, n) == Some(e))
  {
    if Start(g, e) == n {
      LeavingEdgeIsTheEdgeBetween(g, rules, e);
    } else {
      OpposingTurnsAround(g, e);
      var o := Opposing(g, e).value;
      LeavingEdgeIsTheEdgeBetween(g, rules, o);
      var m := End(g, o);
      WayBack(g, rules, n, m, if m == a then b else a);
      assert EdgeBetween(g, rules, m, n) == Some(e);
    }
  }

  /** A complete chain takes, with a mergeable node, all that node's edges in both directions. */
  lemma Swallows(g: Graph, rules: Rules, c: seq<GraphId>, i: nat, e: GraphId)
    requires WellFormed(g) && Symmetric(g, rules) && Complete(g, rules, c)
    requires i < |c| && Mergeable(g, rules, c[i]) && Incident(g, rules, e, c[i])
    ensures e in EdgesOf(g, rules, c)
  {
    hide WellFormed, Symmetric, Neighbours, EdgesOf, EdgeBetween, Incident, Mergeable;
    assert Interior(c, i) || i == 0 || i == |c| - 1;
    var p, q := if Interior(c, i) then i - 1 else |c| - 2, if Interior(c, i) then i + 1 else 1;
    assert Joins(Neighbours(g, rules, c[i]), c[p], c[q]);
    IncidentAtMergeable(g, rules, e, c[i], c[p], c[q]);
    if Interior(c, i) {
      ConsecutiveIsMember(g, rules, c, i - 1);
      ConsecutiveIsMember(g, rules, c, i);
    } else {
      ConsecutiveIsMember(g, rules, c, 0);
      ConsecutiveIsMember(g, rules, c, |c| - 2);
    }
  }

  /** The inductive fact of the collapser: at a mergeable node all edges are tracked or none is. */
  ghost predicate AllOrNone(g: Graph, rules: Rules, tracked: set<GraphId>)
    requires WellFormed(g)
  {
    forall n, e, f | Mergeable(g, rules, n) && Incident(g, rules, e, n) && Incident(g, rules, f, n) ::
      e in tracked <==> f in tracked
  }

  lemma ChainKeepsAllOrNone(g: Graph, rules: Rules, tracked: set<GraphId>, c: seq<GraphId>)
    requires WellFormed(g) && Symmetric(g, rules) && AllOrNone(g, rules, tracked) && Complete(g, rules, c)
    ensures AllOrNone(g, rules, tracked + EdgesOf(g, rules, c))
  {
    hide WellFormed, Symmetric, Neighbours, EdgesOf, EdgeBetween, Mergeable;
    var s := EdgesOf(g, rules, c);
    forall n, e, f | Mergeable(g, rules, n) && Incident(g, rules, e, n) && Incident(g, rules, f, n) && e in s
      ensures f in s
    {
      var i := BetweenConsecutive(g, rules, c, e);
      if EdgeBetween(g, rules, c[i], c[i + 1]) == Some(e) {
        EdgeBetweenLeads(g, rules, c[i], c[i + 1]);
      } else {
        EdgeBetweenLeads(g, rules, c[i + 1], c[i]);
      }
      Swallows(g, rules, c, if c[i] == n then i else i + 1, f);
    }
  }

  ghost predicate StepUntracked(g: Graph, rules: Rules, tracked: set<GraphId>, a: GraphId, b: GraphId)
    requires WellFormed(g)
  {
    && (EdgeBetween(g, rules, a, b).Some? ==> EdgeBetween(g, rules, a, b).value !in tracked)
    && (EdgeBetween(g, rules, b, a).Some? ==> EdgeBetween(g, rules, b, a).value !in tracked)
  }

  lemma UntrackedSpreads(g: Graph, rules: Rules, tracked: set<GraphId>, n: GraphId, a: GraphId, b: GraphId)
    requires WellFormed(g) && AllOrNone(g, rules, tracked) && Joins(Neighbours(g, rules, n), a, b)
    requires EdgeBetween(g, rules, n, a).Some? ==> EdgeBetween(g, rules, n, a).value !in tracked
    ensures StepUntracked(g, rules, tracked, n, a) && StepUntracked(g, rules, tracked, n, b)
  {
    hide Neighbours, WellFormed, EdgeBetween;
    NeighbourHasEdge(g, rules, n, a, b);
    EdgeBetweenLeads(g, rules, n, a);
    EdgeBetweenLeads(g, rules, n, b);
    assert Incident(g, rules, EdgeBetween(g, rules, n, a).value, n);
    assert Incident(g, rules, EdgeBetween(g, rules, n, b).value, n);
    if EdgeBetween(g, rules, a, n).Some? {
      EdgeBetweenLeads(g, rules, a, n);
      assert Incident(g, rules, EdgeBetween(g, rules, a, n).value, n);
    }
    if EdgeBetween(g, rules, b, n).Some? {
      EdgeBetweenLeads(g, rules, b, n);
      assert Incident(g, rules, EdgeBetween(g, rules, b, n).value, n);
    }
  }

  /** One untracked road of a chain means the whole chain is untracked. */
  lemma UntrackedChain(g: Graph, rules: Rules, tracked: set<GraphId>, c: seq<GraphId>, k: nat)
    requires WellFormed(g) && AllOrNone(g, rules, tracked) && Chain(g, rules, c) && k + 1 < |c|
    requires StepUntracked(g, rules, tracked, c[k], c[k + 1])
    ensures EdgesOf(g, rules, c) !! tracked
  {
    hide Neighbours, WellFormed, EdgeBetween, EdgesOf, AllOrNone;
    var hi := k;
    while hi < |c| - 2
      invariant k <= hi <= |c| - 2
      invariant forall j | k <= j <= hi :: StepUntracked(g, rules, tracked, c[j], c[j + 1])
    {
      hi := hi + 1;
      assert Interior(c, hi);
      UntrackedSpreads(g, rules, tracked, c[hi], c[hi - 1], c[hi + 1]);
    }
    var lo := k;
    while lo > 0
      invariant 0 <= lo <= k
      invariant forall j | lo <= j <= |c| - 2 :: StepUntracked(g, rules, tracked, c[j], c[j + 1])
    {
      assert Interior(c, lo);
      UntrackedSpreads(g, rules, tracked, c[lo], c[lo + 1], c[lo - 1]);
      lo := lo - 1;
    }
    forall e | e in EdgesOf(g, rules, c)
      ensures e !in tracked
    {
      var i := BetweenConsecutive(g, rules, c, e);
      StepUntrackedMeans(g, rules, tracked, c[i], c[i + 1], e);
    }
  }

  lemma StepUntrackedMeans(g: Graph, rules: Rules, tracked: set<GraphId>, a: GraphId, b: GraphId, e: GraphId)
    requires WellFormed(g) && StepUntracked(g, rules, tracked, a, b)
    requires EdgeBetween(g, rules, a, b) == Some(e) || EdgeBetween(g, rules, b, a) == Some(e)
    ensures e !in tracked
  {
  }

  // ---------------------------------------------------------------------------------------------
  // The first chain of a node, and what the two walks from it add up to

  lemma ThreeNodes(g: Graph, rules: Rules, a: GraphId, n: GraphId, b: GraphId)
    requires WellFormed(g) && Joins(Neighbours(g, rules, n), a, b) && a != n && b != n
    ensures Chain(g, rules, [a, n, b])
  {
    hide WellFormed, Neighbours;
  }

  lemma FirstChain(g: Graph, rules: Rules, n: GraphId)
    requires WellFormed(g) && Symmetric(g, rules) && Mergeable(g, rules, n)
    ensures var ns := Neighbours(g, rules, n).value;
            ValidNode(g, n) && Joins(Neighbours(g, rules, n), ns.0, ns.1) && Chain(g, rules, [ns.1, n, ns.0])
  {
    hide WellFormed, Symmetric, EdgeBetween, Opposing, Chain;
    var ns := Neighbours(g, rules, n).value;
    WayBack(g, rules, n, ns.0, ns.1);
    WayBack(g, rules, n, ns.1, ns.0);
    ThreeNodes(g, rules, ns.1, n, ns.0);
  }

  lemma {:induction false} AlongJoin(g: Graph, rules: Rules, us: seq<GraphId>, vs: seq<GraphId>)
    requires WellFormed(g) && us != [] && vs != [] && us[|us| - 1] == vs[0]
    ensures Along(g, rules, us[..|us| - 1] + vs) == Along(g, rules, us) + Along(g, rules, vs)
    decreases us
  {
    hide WellFormed, Along, Step;
    if |us| == 1 {
      assert us[..0] + vs == vs;
      NoEdgesAtOneNode(g, rules, us[0]);
      assert us == [us[0]];
    } else {
      var all := us[..|us| - 1] + vs;
      AlongJoin(g, rules, us[1..], vs);
      JoinedTail(us, vs);
      AlongSplits(g, rules, us);
      AlongSplits(g, rules, all);
    }
  }

  lemma JoinedTail(us: seq<GraphId>, vs: seq<GraphId>)
    requires |us| > 1 && vs != [] && us[|us| - 1] == vs[0]
    ensures var all := us[..|us| - 1] + vs;
            all[1..] == us[1..][..|us[1..]| - 1] + vs && all[0] == us[0] && all[1] == us[1]
  {
  }

  lemma AlongSplits(g: Graph, rules: Rules, us: seq<GraphId>)
    requires WellFormed(g) && |us| > 1
    ensures Along(g, rules, us) == Step(g, rules, us[0], us[1]) + Along(g, rules, us[1..])
  {
  }

  /** Both walks together: `fwd` and `bwd` are the nodes of the first and second walk from one node. */
  lemma WalksJoin(g: Graph, rules: Rules, fwd: seq<GraphId>, bwd: seq<GraphId>)
    requires WellFormed(g) && fwd != [] && bwd != [] && fwd[0] == bwd[0]
    ensures var c := Reversed(bwd)[..|bwd| - 1] + fwd;
            && Along(g, rules, c) == Along(g, rules, Reversed(bwd)) + Along(g, rules, fwd)
            && Reversed(c) == Reversed(fwd)[..|fwd| - 1] + bwd
            && Along(g, rules, Reversed(c)) == Along(g, rules, Reversed(fwd)) + Along(g, rules, bwd)
            && EdgesOf(g, rules, c) == EdgesOf(g, rules, fwd) + EdgesOf(g, rules, bwd)
  {
    hide WellFormed, Along;
    AlongJoin(g, rules, Reversed(bwd), fwd);
    AlongJoin(g, rules, Reversed(fwd), bwd);
  }

  /** The nodes `walked` and `next` continue the chain `us0` after its last two nodes. */
  predicate Continues(us0: seq<GraphId>, walked: seq<GraphId>, us: seq<GraphId>) {
    && 3 <= |us0| && 2 <= |walked| && us == us0[..|us0| - 2] + walked
    && walked[0] == us0[|us0| - 2] && walked[1] == us0[|us0| - 1]
  }

  lemma ContinuesOn(us0: seq<GraphId>, walked: seq<GraphId>, us: seq<GraphId>, next: GraphId)
    requires Continues(us0, walked, us)
    ensures Continues(us0, walked + [next], us + [next])
    ensures 3 <= |us0| <= |us| && us[0] == us0[0] && us[|us0| - 2] == us0[|us0| - 2]
    ensures us[|us| - 1] == walked[|walked| - 1] && us[|us| - 2] == walked[|walked| - 2]
    ensures (us + [next])[1..] == us[1..] + [next]
  {
  }

  lemma ContinuesFromStart(us0: seq<GraphId>)
    requires 3 <= |us0|
    ensures Continues(us0, us0[|us0| - 2..], us0) && us0[|us0| - 2..] == [us0[|us0| - 2]] + [us0[|us0| - 1]]
  {
  }

  lemma FirstRun(g: Graph, us0: seq<GraphId>, walked: seq<GraphId>, us: seq<GraphId>)
    requires |us0| == 3 && Continues(us0, walked, us) && ValidNode(g, us0[1])
    ensures us[1..] == walked && 3 <= |us| && 2 <= |walked| && walked[0] == us0[1] && walked[1] == us0[2]
    ensures us[|us| - 1] == walked[|walked| - 1]
    ensures var rw, ru := Reversed(walked), Reversed(us);
            && |ru| == |us| && ru[|us| - 2] == us0[1] && ru[|us| - 1] == us0[0]
            && |rw| == |walked| && rw[|rw| - 1] == walked[0]
            && PathStart(g, rw) == PathStart(g, ru) && PathStart(g, walked) == us0[1]
  {
    var rw, ru := Reversed(walked), Reversed(us);
    assert rw[0] == ru[0] && rw[1] == ru[1];
  }

  /** The run of the second walk, which starts from the reversal `ru` of the first walk's run, read
      backwards: the second walk reversed, then the first. */
  lemma ReversedRun(g: Graph, us0: seq<GraphId>, fwd: seq<GraphId>, us: seq<GraphId>, ru: seq<GraphId>,
                    bwd: seq<GraphId>, us2: seq<GraphId>)
    requires |us0| == 3 && Continues(us0, fwd, us) && ru == Reversed(us) && Continues(ru, bwd, us2)
    ensures fwd != [] && bwd != [] && fwd[0] == bwd[0] && 2 <= |us| && 3 <= |us2| && |bwd| < |us2| && 2 <= |ru|
    ensures var c := Reversed(us2);
            && c == Reversed(bwd)[..|bwd| - 1] + fwd && Reversed(c) == us2
            && |c| == |us2| && c[|bwd| - 1] == us0[1] && c[|bwd|] == us0[2] && c[|c| - 1] == us[|us| - 1]
    ensures PathStart(g, ru) == PathStart(g, us2)
  {
    hide Reversed;
    assert us0[..1] == [us0[0]];
    ReversedCons(us0[0], fwd);
    ReversedJoin(fwd, bwd);
    assert us2 == Reversed(fwd)[..|fwd| - 1] + bwd;
  }

  lemma ReversedCons(u: GraphId, us: seq<GraphId>)
    ensures Reversed([u] + us) == Reversed(us) + [u]
    ensures us != [] ==> Reversed([u] + us)[..|us| - 1] == Reversed(us)[..|us| - 1]
    ensures us != [] ==> Reversed(us)[|us| - 1] == us[0]
  {
    assert Reversed([u] + us) == Reversed(us) + [u];
  }

  lemma ReversedJoin(us: seq<GraphId>, vs: seq<GraphId>)
    requires us != [] && vs != [] && us[0] == vs[0]
    ensures Reversed(Reversed(us)[..|us| - 1] + vs) == Reversed(vs)[..|vs| - 1] + us
    ensures Reversed(Reversed(vs)[..|vs| - 1] + us) == Reversed(us)[..|us| - 1] + vs
  {
  }
}
