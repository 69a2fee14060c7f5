/** GraphReader::GetShortcut: from an edge, walk backwards along the only possible road until the edge
    that a shortcut supersedes is found. */
module ShortcutLookup {
  import opened TileHierarchy
  import opened Wrappers
  import opened RoadGraph

  /** Levels 0 and 1 have shortcuts, the local level and the transit level do not. */
  predicate OnShortcutLevel(e: GraphId) {
    e.tile.level < 2
  }

  /** What the edges of those levels are like: none is a line of public transport or a connection to a bike
      sharing station, and what is or could be part of a shortcut leads to such a level and has another half
      that is or could be, too. Connections to public transport may be there, and edges may leave the tile set. */
  ghost predicate ShortcutLevels(g: Graph)
    requires WellFormed(g)
  {
    forall e | ValidEdge(g, e) && OnShortcutLevel(e) ::
      !Edge(g, e).IsTransitLine() && !Edge(g, e).bssConnection && HalvesAgree(g, e)
  }

  ghost predicate HalvesAgree(g: Graph, e: GraphId)
    requires WellFormed(g) && ValidEdge(g, e)
  {
    && (Edge(g, e).CanFormShortcut() || Edge(g, e).isShortcut ==> OnShortcutLevel(End(g, e)))
    && (Opposing(g, e).Some? ==>
          var o := Opposing(g, e).value;
          && ValidEdge(g, o) && Edge(g, o).CanFormShortcut() == Edge(g, e).CanFormShortcut()
          && Edge(g, o).isShortcut == Edge(g, e).isShortcut)
  }

  function Others(g: Graph, es: seq<GraphId>, skip: GraphId): (r: seq<GraphId>)
    requires forall e | e in es :: ValidEdge(g, e)
    ensures forall e :: e in r <==> e in es && e != skip && Edge(g, e).CanFormShortcut()
  {
    if es == [] then []
    else Others(g, es[..|es| - 1], skip) +
         (if es[|es| - 1] != skip && Edge(g, es[|es| - 1]).CanFormShortcut() then [es[|es| - 1]] else [])
  }

  /** The continuing edge at a node: the only other edge there that could be part of a shortcut. */
  function Continuing(g: Graph, n: GraphId, skip: GraphId): Option<GraphId>
    requires WellFormed(g) && ValidNode(g, n)
  {
    OutEdgesValid(g, n);
    var others := Others(g, OutEdges(g, n), skip);
    if |others| == 1 then Some(others[0]) else None
  }

  predicate ShortcutAt(g: Graph, n: GraphId)
    requires WellFormed(g) && ValidNode(g, n)
  {
    OutEdgesValid(g, n);
    exists e | e in OutEdges(g, n) :: Edge(g, e).isShortcut
  }

  /** Bit j of the mask is set, and none below it. */
  predicate IsLowest(mask: bv7, j: nat) {
    && j < 7 && mask & ((1 as bv7) << j) != 0
    && (0 < j ==> mask & 1 == 0) && (1 < j ==> mask & 2 == 0) && (2 < j ==> mask & 4 == 0)
    && (3 < j ==> mask & 8 == 0) && (4 < j ==> mask & 16 == 0) && (5 < j ==> mask & 32 == 0)
  }

  /** The position of the lowest set bit, counted from 1 (ffs). */
  function LowestBit(mask: bv7): (k: nat)
    ensures mask != 0 ==> 1 <= k <= 7 && IsLowest(mask, k - 1)
  {
    if mask & 1 != 0 then 1 else if mask & 2 != 0 then 2 else if mask & 4 != 0 then 3
    else if mask & 8 != 0 then 4 else if mask & 16 != 0 then 5 else if mask & 32 != 0 then 6
    else if mask & 64 != 0 then 7 else 0
  }

  predicate Superseded(g: Graph, e: GraphId)
    requires ValidEdge(g, e)
  {
    Edge(g, e).superseded != 0
  }

  /** The edge at the begin node of `e` whose place there is the number of the shortcut that
      supersedes `e`. */
  ghost function ShortcutOf(g: Graph, e: GraphId): GraphId
    requires WellFormed(g) && ValidEdge(g, e) && Superseded(g, e)
  {
    var n := Start(g, e);
    GraphId(n.tile, Node(g, n).edgeIndex + LowestBit(Edge(g, e).superseded) - 1)
  }

  /** The edge before `b` on the only possible road. */
  ghost function Before(g: Graph, b: GraphId): Option<GraphId>
    requires WellFormed(g) && ValidEdge(g, b)
  {
    match Continuing(g, Start(g, b), b)
    case None => None
    case Some(c) => ContinuingIsValid(g, Start(g, b), b); Opposing(g, c)
  }

  lemma ContinuingIsValid(g: Graph, n: GraphId, skip: GraphId)
    requires WellFormed(g) && ValidNode(g, n)
    ensures var c := Continuing(g, n, skip);
            c.Some? ==>
              && ValidEdge(g, c.value) && Start(g, c.value) == n && c.value != skip
              && Edge(g, c.value).CanFormShortcut()
    ensures forall d | Continuing(g, n, skip).Some? && ValidEdge(g, d) && Leaves(g, d, n) && d != skip
                       && Edge(g, d).CanFormShortcut() :: Continuing(g, n, skip) == Some(d)
  {
    hide WellFormed;
    OutEdgesValid(g, n);
    var others := Others(g, OutEdges(g, n), skip);
    if |others| == 1 {
      assert others[0] in others;
      forall d | ValidEdge(g, d) && Leaves(g, d, n) && d != skip && Edge(g, d).CanFormShortcut()
        ensures d == others[0]
      {
        assert d in others;
      }
    }
  }

  /** The only road on from the begin node of `b` is edge `c`, which leaves the tile set. */
  ghost predicate LeadsOut(g: Graph, b: GraphId, c: GraphId)
    requires WellFormed(g) && ValidEdge(g, b)
  {
    Continuing(g, Start(g, b), b) == Some(c) && ValidEdge(g, c) && End(g, c).tile !in g
  }

  /** Going back leads head to tail into `b`, over an edge that could be part of a shortcut. */
  lemma BeforeLeadsTo(g: Graph, b: GraphId)
    requires WellFormed(g) && ShortcutLevels(g) && ValidEdge(g, b) && OnShortcutLevel(b)
    ensures var c := Continuing(g, Start(g, b), b);
            && (Before(g, b).None? <==> c.None? || LeadsOut(g, b, c.value))
            && (c.Some? ==> ValidEdge(g, c.value) && OnShortcutLevel(c.value))
    ensures Before(g, b).Some? ==>
              var p := Before(g, b).value;
              && ValidEdge(g, p) && OnShortcutLevel(p) && End(g, p) == Start(g, b) && Edge(g, p).CanFormShortcut()
              && Opposing(g, p) == Continuing(g, Start(g, b), b) && Opposing(g, p) != Some(b)
  {
    ContinuingIsValid(g, Start(g, b), b);
    var c := Continuing(g, Start(g, b), b);
    if c.Some? {
      assert HalvesAgree(g, c.value);
      if Opposing(g, c.value).Some? {
        OpposingTurnsAround(g, c.value);
      }
    }
  }

  /** Going back is injective: two edges with the same edge before them are the same, provided one of
      them could be part of a shortcut. */
  lemma BeforeIsInjective(g: Graph, b: GraphId, c: GraphId)
    requires WellFormed(g) && ShortcutLevels(g) && ValidEdge(g, b) && ValidEdge(g, c)
    requires OnShortcutLevel(b) && OnShortcutLevel(c)
    requires Before(g, b).Some? && Before(g, b) == Before(g, c)
    requires Edge(g, b).CanFormShortcut()
    ensures b == c
  {
    hide WellFormed, Continuing, Opposing;
    BeforeLeadsTo(g, b);
    BeforeLeadsTo(g, c);
    ContinuingIsValid(g, Start(g, c), c);
    ContinuingIsValid(g, Start(g, b), b);
  }

  ghost predicate StepsBack(g: Graph, id: GraphId, b: GraphId, p: GraphId)
    requires WellFormed(g) && ValidEdge(g, b)
  {
    Before(g, b) == Some(p) && p != id
  }

  ghost predicate BackChain(g: Graph, id: GraphId, bs: seq<GraphId>)
    requires WellFormed(g)
  {
    && bs != [] && bs[0] == id && (forall b | b in bs :: ValidEdge(g, b))
    && (forall i | 0 <= i < |bs| - 1 :: StepsBack(g, id, bs[i], bs[i + 1]))
  }

  /** The walk back has come along `bs` and may go on: nothing on the way is superseded, and no shortcut
      begins at a node it went through. */
  ghost predicate WalkedBack(g: Graph, id: GraphId, bs: seq<GraphId>)
    requires WellFormed(g)
  {
    && BackChain(g, id, bs) && (forall b | b in bs :: !Superseded(g, b))
    && forall i | 0 <= i < |bs| - 1 :: !ShortcutAt(g, Start(g, bs[i]))
  }

  /** The walk back ends at the superseded edge `last`. */
  ghost predicate Finds(g: Graph, id: GraphId, bs: seq<GraphId>, last: GraphId)
    requires WellFormed(g)
  {
    && ValidEdge(g, last) && Superseded(g, last)
    && (bs == [] ==> last == id)
    && (bs != [] ==> WalkedBack(g, id, bs) && Before(g, bs[|bs| - 1]) == Some(last) && last != id)
  }

  /** The walk back goes on over an edge that leaves the tile set. */
  ghost predicate RunsOff(g: Graph, id: GraphId, bs: seq<GraphId>, c: GraphId)
    requires WellFormed(g)
  {
    WalkedBack(g, id, bs) && LeadsOut(g, bs[|bs| - 1], c)
  }

  lemma {:induction false} BackChainOnLevel(g: Graph, id: GraphId, bs: seq<GraphId>, i: nat)
    requires WellFormed(g) && ShortcutLevels(g) && BackChain(g, id, bs) && OnShortcutLevel(id) && i < |bs|
    ensures OnShortcutLevel(bs[i])
  {
    hide WellFormed, Before, ShortcutLevels, OnShortcutLevel;
    if i > 0 {
      BackChainOnLevel(g, id, bs, i - 1);
      assert StepsBack(g, id, bs[i - 1], bs[i - 1 + 1]);
      BeforeLeadsTo(g, bs[i - 1]);
    }
  }

  lemma {:induction false} BackChainDistinct(g: Graph, id: GraphId, bs: seq<GraphId>, i: nat, j: nat)
    requires WellFormed(g) && ShortcutLevels(g) && BackChain(g, id, bs) && OnShortcutLevel(id) && i < j < |bs|
    ensures bs[i] != bs[j]
  {
    hide WellFormed, Before, ShortcutLevels, OnShortcutLevel;
    assert StepsBack(g, id, bs[j - 1], bs[j - 1 + 1]);
    if i > 0 && bs[i] == bs[j] {
      assert StepsBack(g, id, bs[i - 1], bs[i - 1 + 1]) && StepsBack(g, id, bs[j - 2], bs[j - 2 + 1]);
      BackChainOnLevel(g, id, bs, i - 1);
      BackChainOnLevel(g, id, bs, j - 1);
      BackChainOnLevel(g, id, bs, j - 2);
      BeforeLeadsTo(g, bs[j - 2]);
      BeforeIsInjective(g, bs[j - 1], bs[i - 1]);
      BackChainDistinct(g, id, bs, i - 1, j - 1);
    }
  }

  lemma {:induction false} BackChainsAgree(g: Graph, id: GraphId, bs: seq<GraphId>, cs: seq<GraphId>, i: nat)
    requires WellFormed(g) && BackChain(g, id, bs) && BackChain(g, id, cs) && i < |bs| && i < |cs|
    ensures bs[i] == cs[i]
  {
    hide WellFormed, Before;
    if i > 0 {
      BackChainsAgree(g, id, bs, cs, i - 1);
      assert StepsBack(g, id, bs[i - 1], bs[i - 1 + 1]) && StepsBack(g, id, cs[i - 1], cs[i - 1 + 1]);
    }
  }

  lemma StepBackIs(g: Graph, id: GraphId, bs: seq<GraphId>, m: nat, p: GraphId)
    requires WellFormed(g) && BackChain(g, id, bs) && 0 < m < |bs| && Before(g, bs[m - 1]) == Some(p)
    ensures p in bs
  {
    hide WellFormed, Before;
    assert StepsBack(g, id, bs[m - 1], bs[m - 1 + 1]);
  }

  /** Any search that succeeds has gone through the edges walked back over so far. */
  lemma FindsGoesOn(g: Graph, id: GraphId, bs: seq<GraphId>, cs: seq<GraphId>, last: GraphId)
    requires WellFormed(g) && WalkedBack(g, id, bs) && Finds(g, id, cs, last)
    ensures |bs| <= |cs| && forall i | 0 <= i < |bs| :: cs[i] == bs[i]
    ensures |bs| == |cs| ==> StepsBack(g, id, bs[|bs| - 1], last)
    ensures |bs| < |cs| ==> StepsBack(g, id, bs[|bs| - 1], cs[|bs|]) && !Superseded(g, cs[|bs|])
    ensures |bs| < |cs| ==> !ShortcutAt(g, Start(g, bs[|bs| - 1]))
  {
    hide WellFormed, Before, Superseded, ShortcutAt;
    if cs != [] {
      var m := if |bs| <= |cs| then |bs| else |cs|;
      forall i | 0 <= i < m
        ensures cs[i] == bs[i]
      {
        BackChainsAgree(g, id, bs, cs, i);
      }
      if |bs| < |cs| {
        assert StepsBack(g, id, cs[m - 1], cs[m - 1 + 1]);
      } else if |cs| < |bs| {
        StepBackIs(g, id, bs, |cs|, last);
      }
    }
  }

  /** So has any search that runs off the tile set. */
  lemma RunsOffGoesOn(g: Graph, id: GraphId, bs: seq<GraphId>, cs: seq<GraphId>, c: GraphId)
    requires WellFormed(g) && WalkedBack(g, id, bs) && RunsOff(g, id, cs, c)
    ensures |bs| <= |cs| && forall i | 0 <= i < |bs| :: cs[i] == bs[i]
    ensures |bs| == |cs| ==> LeadsOut(g, bs[|bs| - 1], c)
    ensures |bs| < |cs| ==> StepsBack(g, id, bs[|bs| - 1], cs[|bs|]) && !Superseded(g, cs[|bs|])
    ensures |bs| < |cs| ==> !ShortcutAt(g, Start(g, bs[|bs| - 1]))
  {
    hide WellFormed, Before, LeadsOut, Superseded, ShortcutAt;
    var m := if |bs| <= |cs| then |bs| else |cs|;
    forall i | 0 <= i < m
      ensures cs[i] == bs[i]
    {
      BackChainsAgree(g, id, bs, cs, i);
    }
    if |bs| < |cs| {
      assert StepsBack(g, id, cs[m - 1], cs[m - 1 + 1]);
    } else if |cs| < |bs| {
      assert StepsBack(g, id, bs[m - 1], bs[m - 1 + 1]);
      LeadsOutIsLast(g, bs[m - 1], c);
    }
  }

  lemma LeadsOutIsLast(g: Graph, b: GraphId, c: GraphId)
    requires WellFormed(g) && ValidEdge(g, b) && LeadsOut(g, b, c)
    ensures Before(g, b).None?
  {
  }

  lemma OthersOfNone(g: Graph, skip: GraphId)
    ensures Others(g, [], skip) == []
  {
  }

  lemma OthersWithNext(g: Graph, es: seq<GraphId>, skip: GraphId, i: nat)
    requires i < |es| && AllValid(g, es)
    ensures Others(g, es[..i + 1], skip) ==
            Others(g, es[..i], skip) + if es[i] != skip && Edge(g, es[i]).CanFormShortcut() then [es[i]] else []
  {
    assert es[..i + 1][..i] == es[..i];
  }

  /** The lambda of the original: the only other edge at the node, and whether a shortcut begins there.
      Once a second edge is found the pointer is parked behind the node's last edge. */
  method ContinuingEdge(g: Graph, n: GraphId, skip: GraphId) returns (cont: Option<GraphId>, shortcutAtNode: bool)
    requires WellFormed(g) && ValidNode(g, n)
    ensures cont == Continuing(g, n, skip) && shortcutAtNode == ShortcutAt(g, n)
  {
    hide WellFormed, Others, Start;
    OutEdgesValid(g, n);
    var out := OutEdges(g, n);
    var found: Option<nat> := None;
    shortcutAtNode := false;
    assert out[..0] == [];
    OthersOfNone(g, skip);
    for i := 0 to |out|
      invariant shortcutAtNode == exists e | e in out[..i] :: Edge(g, e).isShortcut
      invariant found.None? ==> Others(g, out[..i], skip) == []
      invariant found.Some? && found.value < |out| ==> Others(g, out[..i], skip) == [out[found.value]]
      invariant found.Some? && found.value >= |out| ==> found.value == |out| && |Others(g, out[..i], skip)| > 1
    {
      OthersWithNext(g, out, skip, i);
      assert out[..i + 1] == out[..i] + [out[i]];
      shortcutAtNode := shortcutAtNode || Edge(g, out[i]).isShortcut;
      if out[i] == skip || !Edge(g, out[i]).CanFormShortcut() {
        continue;
      }
      if found.Some? {
        found := Some(i + (|out| - i));
        continue;
      }
      found := Some(i);
    }
    assert out[..|out|] == out;
    cont := if found.None? || found.value == |out| then None else Some(out[found.value]);
  }

  /** No search succeeds when there is no way further back, when it closes a loop, or when it goes
      through a node where a shortcut begins that does not supersede the edge. */
  lemma SearchEnds(g: Graph, id: GraphId, bs: seq<GraphId>)
    requires WellFormed(g) && WalkedBack(g, id, bs)
    requires var p := Before(g, bs[|bs| - 1]);
             p.None? || p == Some(id)
             || (ValidEdge(g, p.value) && !Superseded(g, p.value) && ShortcutAt(g, Start(g, bs[|bs| - 1])))
    ensures forall cs, last :: !Finds(g, id, cs, last)
    ensures (forall cs, c :: !RunsOff(g, id, cs, c)) || exists c :: RunsOff(g, id, bs, c)
  {
    hide WellFormed, Before, LeadsOut, Superseded, ShortcutAt, WalkedBack;
    forall cs, last
      ensures !Finds(g, id, cs, last)
    {
      if Finds(g, id, cs, last) {
        FindsGoesOn(g, id, bs, cs, last);
      }
    }
    if cs, c :| RunsOff(g, id, cs, c) {
      RunsOffGoesOn(g, id, bs, cs, c);
      assert RunsOff(g, id, bs, c);
    }
  }

  /** A search that succeeds does not run off the tile set. */
  lemma FoundIsNotOff(g: Graph, id: GraphId, bs: seq<GraphId>, last: GraphId)
    requires WellFormed(g) && Finds(g, id, bs, last)
    ensures forall cs, c :: !RunsOff(g, id, cs, c)
  {
    hide WellFormed, Before, LeadsOut, Superseded, ShortcutAt, BackChain;
    forall cs, c
      ensures !RunsOff(g, id, cs, c)
    {
      if RunsOff(g, id, cs, c) {
        if bs == [] {
          RunsOffFromId(g, id, cs, c);
        } else {
          WalkedBackLast(g, id, bs);
          RunsOffGoesOn(g, id, bs, cs, c);
          if |bs| == |cs| {
            LeadsOutIsLast(g, bs[|bs| - 1], c);
          }
        }
      }
    }
  }

  lemma WalkedBackLast(g: Graph, id: GraphId, bs: seq<GraphId>)
    requires WellFormed(g) && WalkedBack(g, id, bs)
    ensures bs != [] && ValidEdge(g, bs[|bs| - 1])
  {
  }

  lemma RunsOffFromId(g: Graph, id: GraphId, cs: seq<GraphId>, c: GraphId)
    requires WellFormed(g) && RunsOff(g, id, cs, c)
    ensures ValidEdge(g, id) && !Superseded(g, id)
  {
    hide WellFormed, StepsBack, LeadsOut, Superseded, ShortcutAt;
    assert cs[0] in cs;
  }

  lemma WalkFurtherBack(g: Graph, id: GraphId, bs: seq<GraphId>, p: GraphId)
    requires WellFormed(g) && ShortcutLevels(g) && OnShortcutLevel(id)
    requires WalkedBack(g, id, bs) && StepsBack(g, id, bs[|bs| - 1], p)
    requires ValidEdge(g, p) && !Superseded(g, p) && !ShortcutAt(g, Start(g, bs[|bs| - 1]))
    ensures WalkedBack(g, id, bs + [p]) && p !in bs
  {
    hide WellFormed, Before, Superseded, ShortcutAt, ShortcutLevels;
    var cs := bs + [p];
    if p in bs {
      var i :| 0 <= i < |bs| && bs[i] == p;
      BackChainDistinct(g, id, cs, i, |bs|);
    }
  }

  lemma WalkBackBegins(g: Graph, id: GraphId)
    requires WellFormed(g) && ValidEdge(g, id) && !Superseded(g, id)
    ensures WalkedBack(g, id, [id])
  {
  }

  lemma SearchSucceeds(g: Graph, id: GraphId, bs: seq<GraphId>, last: GraphId)
    requires WellFormed(g) && ValidEdge(g, last) && Superseded(g, last)
    requires bs == [] ==> last == id
    requires bs != [] ==> WalkedBack(g, id, bs) && StepsBack(g, id, bs[|bs| - 1], last)
    ensures Finds(g, id, bs, last)
  {
  }

  /** What became of a search. The original stops with a null tile in the last case. */
  datatype Lookup = Shortcut(id: GraphId) | NoShortcut | NoTile(edge: GraphId)

  /** The answer `r` is right: a shortcut exactly when a search succeeds, and a missing tile exactly when
      one runs off the tile set. */
  ghost predicate RightAnswer(g: Graph, id: GraphId, r: Lookup, bs: seq<GraphId>, last: GraphId)
    requires WellFormed(g)
  {
    && (r.Shortcut? ==> Finds(g, id, bs, last) && r.id == ShortcutOf(g, last))
    && (r.NoTile? ==> RunsOff(g, id, bs, r.edge))
    && (!r.Shortcut? ==> forall cs, e :: !Finds(g, id, cs, e))
    && (!r.NoTile? ==> forall cs, c :: !RunsOff(g, id, cs, c))
  }

  lemma AnswersShortcut(g: Graph, id: GraphId, bs: seq<GraphId>, last: GraphId)
    requires WellFormed(g) && Finds(g, id, bs, last)
    ensures RightAnswer(g, id, Shortcut(ShortcutOf(g, last)), bs, last)
  {
    hide WellFormed, WalkedBack, Before, LeadsOut, ShortcutOf;
    FoundIsNotOff(g, id, bs, last);
  }

  lemma AnswersNoShortcut(g: Graph, id: GraphId, bs: seq<GraphId>, last: GraphId)
    requires WellFormed(g) && WalkedBack(g, id, bs)
    requires var p := Before(g, bs[|bs| - 1]);
             || Continuing(g, Start(g, bs[|bs| - 1]), bs[|bs| - 1]).None? || p == Some(id)
             || (p.Some? && ValidEdge(g, p.value) && !Superseded(g, p.value)
                 && ShortcutAt(g, Start(g, bs[|bs| - 1])))
    ensures RightAnswer(g, id, NoShortcut, bs, last)
  {
    hide WellFormed, WalkedBack, Continuing, Superseded, ShortcutAt;
    WalkedBackLast(g, id, bs);
    SearchEnds(g, id, bs);
    forall c | RunsOff(g, id, bs, c)
      ensures false
    {
      LeadsOutIsLast(g, bs[|bs| - 1], c);
    }
  }

  lemma AnswersNoTile(g: Graph, id: GraphId, bs: seq<GraphId>, last: GraphId, c: GraphId)
    requires WellFormed(g) && RunsOff(g, id, bs, c)
    ensures RightAnswer(g, id, NoTile(c), bs, last)
  {
    hide WellFormed, WalkedBack, Before, LeadsOut;
    WalkedBackLast(g, id, bs);
    LeadsOutIsLast(g, bs[|bs| - 1], c);
    SearchEnds(g, id, bs);
  }

  /** The loop: the first time round the continuing edge is the opposing edge the walk starts with. */
  method WalkBack(g: Graph, id: GraphId, firstDe: GraphId)
    returns (r: Lookup, ghost back: seq<GraphId>, ghost last: GraphId)
    requires WellFormed(g) && ShortcutLevels(g) && ValidEdge(g, id) && OnShortcutLevel(id)
    requires Opposing(g, id) == Some(firstDe)
    ensures RightAnswer(g, id, r, back, last)
  {
    hide WellFormed, ShortcutLevels, OnShortcutLevel, Continuing, Before, ShortcutAt, Start, LowestBit, Opposing,
      WalkedBack, Finds, BackChain, StepsBack, RightAnswer, RunsOff, LeadsOut;
    back, last := [], id;
    var edgeId := id;
    OpposingTurnsAround(g, id);
    var node: Option<GraphId> := None;
    var shortcutAtNode := false;
    while true
      invariant node.None? ==> back == [] && edgeId == id && !shortcutAtNode
      invariant node.Some? ==> back != [] && WalkedBack(g, id, back) && edgeId == back[|back| - 1]
      invariant node.Some? ==> ValidEdge(g, edgeId) && node.value == Start(g, edgeId)
      decreases AllEdges(g) - (set b | b in back)
    {
      var cont := firstDe;
      ghost var first := node.None?;
      if node.Some? {
        var continuing;
        continuing, shortcutAtNode := ContinuingEdge(g, node.value, edgeId);
        GoBack(g, id, back, edgeId);
        if continuing == Some(firstDe) || continuing.None? {
          AnswersNoShortcut(g, id, back, last);
          return NoShortcut, back, last;
        }
        cont := continuing.value;
        if End(g, cont).tile !in g {
          AnswersNoTile(g, id, back, last, cont);
          return NoTile(cont), back, last;
        }
      }
      OpposingTurnsAround(g, cont);
      node := Some(End(g, cont));
      edgeId := Opposing(g, cont).value;
      if !Superseded(g, edgeId) && shortcutAtNode {
        AnswersNoShortcut(g, id, back, last);
        return NoShortcut, back, last;
      }
      if Superseded(g, edgeId) {
        last := edgeId;
        SearchSucceeds(g, id, back, last);
        AnswersShortcut(g, id, back, last);
        var idx := Node(g, node.value).edgeIndex + LowestBit(Edge(g, edgeId).superseded) - 1;
        return Shortcut(GraphId(node.value.tile, idx)), back, last;
      }
      if first {
        WalkBackBegins(g, id);
      } else {
        WalkFurtherBack(g, id, back, edgeId);
      }
      assert edgeId !in back && (set b | b in back + [edgeId]) == (set b | b in back) + {edgeId};
      assert first ==> back + [edgeId] == [id];
      back := back + [edgeId];
    }
  }

  /** One step back from `b`: the continuing edge is the first opposing edge exactly when the step
      returns to `id`. */
  lemma GoBack(g: Graph, id: GraphId, bs: seq<GraphId>, b: GraphId)
    requires WellFormed(g) && ShortcutLevels(g) && OnShortcutLevel(id) && WalkedBack(g, id, bs) && b == bs[|bs| - 1]
    requires Opposing(g, id).Some?
    ensures var c := Continuing(g, Start(g, b), b);
            && (c.None? ==> Before(g, b).None?)
            && (c.Some? ==> ValidEdge(g, c.value) && Before(g, b) == Opposing(g, c.value))
            && (c == Opposing(g, id) ==> Before(g, b) == Some(id))
            && (c.Some? && End(g, c.value).tile !in g ==> RunsOff(g, id, bs, c.value))
            && (c.Some? && c != Opposing(g, id) && End(g, c.value).tile in g ==>
                  && Opposing(g, c.value).Some? && StepsBack(g, id, b, Opposing(g, c.value).value))
  {
    hide WellFormed, Continuing, Start, HalvesAgree;
    BackChainOnLevel(g, id, bs, |bs| - 1);
    ContinuingIsValid(g, Start(g, b), b);
    BeforeLeadsTo(g, b);
    OpposingTurnsAround(g, id);
    var c := Continuing(g, Start(g, b), b);
    if c.Some? && Opposing(g, c.value).Some? {
      OpposingTurnsAround(g, c.value);
    }
  }

  /** The answer of GetShortcut: no shortcut off the levels that have some, a shortcut for itself, no shortcut
      without an opposing edge, and otherwise the answer of the walk back. */
  ghost predicate LookedUp(g: Graph, id: GraphId, r: Lookup, back: seq<GraphId>, last: GraphId)
    requires WellFormed(g) && ValidEdge(g, id)
  {
    && (!OnShortcutLevel(id) ==> r == NoShortcut)
    && (OnShortcutLevel(id) && Edge(g, id).isShortcut ==> r == Shortcut(id))
    && (OnShortcutLevel(id) && !Edge(g, id).isShortcut && Opposing(g, id).None? ==> r == NoShortcut)
    && (OnShortcutLevel(id) && !Edge(g, id).isShortcut && Opposing(g, id).Some? ==> RightAnswer(g, id, r, back, last))
  }

  // ---------------------------------------------------------------------------------------------
  // The same in terms of what the tiles hold

  /** No shortcut, and of no use that keeps an edge out of shortcuts. */
  predicate CouldBePart(edge: DirectedEdge) {
    && !edge.isShortcut && !edge.bssConnection
    && edge.use !in {TransitConnection, EgressConnection, PlatformConnection, Construction}
  }

  /** Of the edges at node `n` besides `skip`, `c` is the only one that could be part of a shortcut. */
  ghost predicate OnlyRoadOn(g: Graph, n: GraphId, skip: GraphId, c: GraphId)
    requires ValidNode(g, n)
  {
    && Leaves(g, c, n) && ValidEdge(g, c) && c != skip && CouldBePart(Edge(g, c))
    && forall d | Leaves(g, d, n) && ValidEdge(g, d) && d != skip && CouldBePart(Edge(g, d)) :: d == c
  }

  lemma ContinuingIff(g: Graph, n: GraphId, skip: GraphId, c: GraphId)
    requires WellFormed(g) && ValidNode(g, n)
    ensures Continuing(g, n, skip) == Some(c) <==> OnlyRoadOn(g, n, skip, c)
  {
    ContinuingIsValid(g, n, skip);
    OutEdgesValid(g, n);
    var out := OutEdges(g, n);
    var others := Others(g, out, skip);
    hide WellFormed, Others, Start;
    if OnlyRoadOn(g, n, skip, c) {
      assert c in out && c in others;
      OthersDistinct(g, out, skip);
      assert forall d | d in others :: d == c;
      AllTheSame(others, c);
    }
  }

  lemma AllTheSame(es: seq<GraphId>, c: GraphId)
    requires c in es && forall d | d in es :: d == c
    requires forall i, j :: 0 <= i < j < |es| ==> es[i] != es[j]
    ensures es == [c]
  {
    forall k | 0 <= k < |es|
      ensures es[k] == c
    {
      assert es[k] in es;
    }
    var z := |es| - 1;
    assert es[0] == es[z];
  }

  lemma {:induction false} OthersDistinct(g: Graph, es: seq<GraphId>, skip: GraphId)
    requires AllValid(g, es) && forall i, j :: 0 <= i < j < |es| ==> es[i] != es[j]
    ensures forall i, j :: 0 <= i < j < |Others(g, es, skip)| ==> Others(g, es, skip)[i] != Others(g, es, skip)[j]
  {
    if es != [] {
      var most, last := es[..|es| - 1], es[|es| - 1];
      OthersDistinct(g, most, skip);
      assert last !in most;
    }
  }

  /** From edge `e` there is one road back, which comes over edge `p`. */
  ghost predicate OneRoadBack(g: Graph, e: GraphId, p: GraphId)
    requires WellFormed(g) && ValidEdge(g, e)
  {
    exists c :: OnlyRoadOn(g, Start(g, e), e, c) && ValidEdge(g, c) && Opposing(g, c) == Some(p)
  }

  ghost predicate RoadBackTo(g: Graph, id: GraphId, e: GraphId, p: GraphId)
    requires WellFormed(g) && ValidEdge(g, e)
  {
    OneRoadBack(g, e, p) && p != id
  }

  ghost predicate NoShortcutBeside(g: Graph, e: GraphId)
    requires WellFormed(g) && ValidEdge(g, e)
  {
    forall d | ValidEdge(g, d) && Leaves(g, d, Start(g, e)) :: !Edge(g, d).isShortcut
  }

  /** Edges from `id` on, each over the one road back from the one before, none of them superseded, without coming back
      to `id`, and through no node where a shortcut begins. */
  ghost predicate RoadBack(g: Graph, id: GraphId, bs: seq<GraphId>)
    requires WellFormed(g)
  {
    && bs != [] && bs[0] == id && (forall b | b in bs :: ValidEdge(g, b) && Edge(g, b).superseded == 0)
    && (forall i | 0 <= i < |bs| - 1 :: RoadBackTo(g, id, bs[i], bs[i + 1]))
    && (forall i | 0 <= i < |bs| - 1 :: NoShortcutBeside(g, bs[i]))
  }

  /** That road comes to the superseded edge `last`, which may be `id` itself. */
  ghost predicate ComesTo(g: Graph, id: GraphId, bs: seq<GraphId>, last: GraphId)
    requires WellFormed(g)
  {
    && ValidEdge(g, last) && Edge(g, last).superseded != 0
    && (bs == [] ==> last == id)
    && (bs != [] ==> RoadBack(g, id, bs) && RoadBackTo(g, id, bs[|bs| - 1], last))
  }

  /** That road goes on over edge `c`, which leaves the tile set. */
  ghost predicate ComesOut(g: Graph, id: GraphId, bs: seq<GraphId>, c: GraphId)
    requires WellFormed(g)
  {
    && RoadBack(g, id, bs) && ValidEdge(g, c) && End(g, c).tile !in g
    && OnlyRoadOn(g, Start(g, bs[|bs| - 1]), bs[|bs| - 1], c)
  }

  /** The edge at the begin node of `last` whose place, from 0, is the lowest bit of the mask that supersedes `last`. */
  ghost predicate AtItsPlace(g: Graph, last: GraphId, sc: GraphId)
    requires ValidEdge(g, last)
  {
    exists n, j: nat :: ValidNode(g, n) && Leaves(g, last, n) && IsLowest(Edge(g, last).superseded, j)
                        && sc == GraphId(n.tile, Node(g, n).edgeIndex + j)
  }

  lemma BeforeIff(g: Graph, e: GraphId, p: GraphId)
    requires WellFormed(g) && ValidEdge(g, e)
    ensures Before(g, e) == Some(p) <==> OneRoadBack(g, e, p)
  {
    hide WellFormed, Continuing, Opposing, OnlyRoadOn, Start;
    ContinuingIsValid(g, Start(g, e), e);
    forall c
      ensures Continuing(g, Start(g, e), e) == Some(c) <==> OnlyRoadOn(g, Start(g, e), e, c)
    {
      ContinuingIff(g, Start(g, e), e, c);
    }
  }

  lemma ShortcutAtIff(g: Graph, n: GraphId)
    requires WellFormed(g) && ValidNode(g, n)
    ensures ShortcutAt(g, n) <==> exists d :: ValidEdge(g, d) && Leaves(g, d, n) && Edge(g, d).isShortcut
  {
    OutEdgesValid(g, n);
    hide WellFormed;
    if d :| ValidEdge(g, d) && Leaves(g, d, n) && Edge(g, d).isShortcut {
      assert d in OutEdges(g, n);
    }
  }

  lemma WalkedBackIff(g: Graph, id: GraphId, bs: seq<GraphId>)
    requires WellFormed(g)
    ensures WalkedBack(g, id, bs) <==> RoadBack(g, id, bs)
  {
    hide WellFormed, Before, OneRoadBack, Start, ShortcutAt;
    if bs != [] && forall b | b in bs :: ValidEdge(g, b) {
      forall i | 0 <= i < |bs|
        ensures !ShortcutAt(g, Start(g, bs[i])) <==> NoShortcutBeside(g, bs[i])
      {
        ShortcutAtIff(g, Start(g, bs[i]));
      }
      forall i | 0 <= i < |bs| - 1
        ensures StepsBack(g, id, bs[i], bs[i + 1]) <==> RoadBackTo(g, id, bs[i], bs[i + 1])
      {
        BeforeIff(g, bs[i], bs[i + 1]);
      }
    }
  }

  lemma FindsIff(g: Graph, id: GraphId, bs: seq<GraphId>, last: GraphId)
    requires WellFormed(g)
    ensures Finds(g, id, bs, last) <==> ComesTo(g, id, bs, last)
  {
    hide WellFormed, Before, OneRoadBack, WalkedBack, RoadBack;
    WalkedBackIff(g, id, bs);
    if RoadBack(g, id, bs) {
      RoadBackIsValid(g, id, bs);
      BeforeIff(g, bs[|bs| - 1], last);
    }
  }

  lemma RoadBackIsValid(g: Graph, id: GraphId, bs: seq<GraphId>)
    requires WellFormed(g) && RoadBack(g, id, bs)
    ensures bs != [] && ValidEdge(g, bs[|bs| - 1])
  {
  }

  lemma RunsOffIff(g: Graph, id: GraphId, bs: seq<GraphId>, c: GraphId)
    requires WellFormed(g)
    ensures RunsOff(g, id, bs, c) <==> ComesOut(g, id, bs, c)
  {
    hide WellFormed, Continuing, OnlyRoadOn, WalkedBack, RoadBack, Start;
    WalkedBackIff(g, id, bs);
    if RoadBack(g, id, bs) {
      RoadBackIsValid(g, id, bs);
      ContinuingIff(g, Start(g, bs[|bs| - 1]), bs[|bs| - 1], c);
    }
  }

  lemma PlaceOfShortcut(g: Graph, last: GraphId)
    requires WellFormed(g) && ValidEdge(g, last) && Superseded(g, last)
    ensures AtItsPlace(g, last, ShortcutOf(g, last))
  {
    var n := Start(g, last);
    hide WellFormed, Start;
    var j: nat := LowestBit(Edge(g, last).superseded) - 1;
    assert ValidNode(g, n) && Leaves(g, last, n) && IsLowest(Edge(g, last).superseded, j);
  }

  /** What the walk back answers: for an edge that is no shortcut but has an opposing one, on the two upper levels. */
  ghost predicate AnswersWalk(g: Graph, id: GraphId, r: Lookup)
    requires WellFormed(g)
  {
    && (r.Shortcut? <==> exists bs, last :: ComesTo(g, id, bs, last))
    && (r.Shortcut? ==> exists bs, last :: ComesTo(g, id, bs, last) && AtItsPlace(g, last, r.id))
    && (r.NoTile? <==> exists bs, c :: ComesOut(g, id, bs, c))
    && (r.NoTile? ==> exists bs :: ComesOut(g, id, bs, r.edge))
  }

  lemma RightAnswerMeans(g: Graph, id: GraphId, r: Lookup, back: seq<GraphId>, last: GraphId)
    requires WellFormed(g) && RightAnswer(g, id, r, back, last)
    ensures AnswersWalk(g, id, r)
  {
    hide WellFormed, Finds, ComesTo, RunsOff, ComesOut, ShortcutOf, AtItsPlace, Superseded;
    forall bs, e
      ensures Finds(g, id, bs, e) <==> ComesTo(g, id, bs, e)
    {
      FindsIff(g, id, bs, e);
    }
    forall bs, c
      ensures RunsOff(g, id, bs, c) <==> ComesOut(g, id, bs, c)
    {
      RunsOffIff(g, id, bs, c);
    }
    if r.Shortcut? {
      FindsMeans(g, id, back, last);
      PlaceOfShortcut(g, last);
      assert ComesTo(g, id, back, last) && AtItsPlace(g, last, r.id);
    }
  }

  /** Finds the shortcut that includes the edge; `back` are the edges the walk comes through before the
      superseded edge `last`. */
  method GetShortcut(g: Graph, id: GraphId) returns (r: Lookup, ghost back: seq<GraphId>, ghost last: GraphId)
    requires WellFormed(g) && ShortcutLevels(g) && ValidEdge(g, id)
    ensures LookedUp(g, id, r, back, last)
    ensures id.tile.level >= 2 ==> r == NoShortcut
    ensures id.tile.level < 2 && Edge(g, id).isShortcut ==> r == Shortcut(id)
    ensures id.tile.level < 2 && !Edge(g, id).isShortcut && Opposing(g, id).None? ==> r == NoShortcut
    ensures id.tile.level < 2 && !Edge(g, id).isShortcut && Opposing(g, id).Some? ==> AnswersWalk(g, id, r)
  {
    hide WellFormed, ShortcutLevels, Opposing, RightAnswer, AnswersWalk;
    back, last := [], id;
    if id.tile.level >= 2 {
      return NoShortcut, back, last;
    }
    if Edge(g, id).isShortcut {
      return Shortcut(id), back, last;
    }
    var firstDe := Opposing(g, id);
    if firstDe.None? {
      return NoShortcut, back, last;
    }
    r, back, last := WalkBack(g, id, firstDe.value);
    RightAnswerMeans(g, id, r, back, last);
  }

  // ---------------------------------------------------------------------------------------------
  // What a found shortcut has to do with the edge

  lemma BackChainPrefix(g: Graph, id: GraphId, bs: seq<GraphId>, n: nat)
    requires WellFormed(g) && BackChain(g, id, bs) && 0 < n <= |bs|
    ensures BackChain(g, id, bs[..n])
  {
    hide WellFormed, StepsBack;
    var cs := bs[..n];
    forall i | 0 <= i < n - 1
      ensures StepsBack(g, id, cs[i], cs[i + 1])
    {
      assert cs[i] == bs[i] && cs[i + 1] == bs[i + 1];
    }
  }

  function Backwards(bs: seq<GraphId>): (es: seq<GraphId>)
    ensures |es| == |bs|
  {
    if bs == [] then [] else [bs[|bs| - 1]] + Backwards(bs[..|bs| - 1])
  }

  lemma {:induction false} BackChainConnects(g: Graph, id: GraphId, bs: seq<GraphId>)
    requires WellFormed(g) && ShortcutLevels(g) && OnShortcutLevel(id) && BackChain(g, id, bs)
    ensures Connects(g, Start(g, bs[|bs| - 1]), Backwards(bs), End(g, id))
  {
    hide WellFormed, ShortcutLevels, OnShortcutLevel, Before, Start;
    var n := |bs|;
    var es := Backwards(bs);
    assert es[1..] == Backwards(bs[..n - 1]);
    if n == 1 {
      assert Connects(g, End(g, id), es[1..], End(g, id));
    } else {
      assert StepsBack(g, id, bs[n - 2], bs[n - 2 + 1]);
      BackChainOnLevel(g, id, bs, n - 2);
      BeforeLeadsTo(g, bs[n - 2]);
      BackChainPrefix(g, id, bs, n - 1);
      BackChainConnects(g, id, bs[..n - 1]);
    }
  }

  lemma FindsMeans(g: Graph, id: GraphId, bs: seq<GraphId>, last: GraphId)
    requires WellFormed(g) && Finds(g, id, bs, last)
    ensures ValidEdge(g, id) && ValidEdge(g, last) && Superseded(g, last)
    ensures bs == [] ==> last == id && Backwards(bs) == []
    ensures bs != [] ==> BackChain(g, id, bs) && bs[0] == id && StepsBack(g, id, bs[|bs| - 1], last)
  {
  }

  /** A found shortcut leaves the node of a superseded edge from which continuing edges lead head to tail
      through the input edge. */
  lemma FoundLeadsToEdge(g: Graph, id: GraphId, bs: seq<GraphId>, last: GraphId)
    requires WellFormed(g) && ShortcutLevels(g) && OnShortcutLevel(id) && Finds(g, id, bs, last)
    ensures ValidEdge(g, id) && Superseded(g, last)
    ensures Connects(g, Start(g, last), [last] + Backwards(bs), End(g, id))
    ensures bs != [] ==> Edge(g, last).CanFormShortcut() && Backwards(bs)[|bs| - 1] == id
    ensures bs == [] ==> last == id
  {
    FindsMeans(g, id, bs, last);
    hide WellFormed, ShortcutLevels, OnShortcutLevel, Before, Start, Superseded, BackChain, Finds, Backwards;
    assert ([last] + Backwards(bs))[1..] == Backwards(bs);
    if bs == [] {
      assert Connects(g, End(g, id), Backwards(bs), End(g, id));
    } else {
      BackChainConnects(g, id, bs);
      BackChainOnLevel(g, id, bs, |bs| - 1);
      BeforeLeadsTo(g, bs[|bs| - 1]);
      BackwardsEnds(bs);
    }
  }

  lemma {:induction false} BackwardsEnds(bs: seq<GraphId>)
    requires bs != []
    ensures Backwards(bs)[|bs| - 1] == bs[0]
  {
    if |bs| > 1 {
      BackwardsEnds(bs[..|bs| - 1]);
    }
  }

  lemma FindsUnique(g: Graph, id: GraphId, bs: seq<GraphId>, b: GraphId, cs: seq<GraphId>, c: GraphId)
    requires WellFormed(g) && Finds(g, id, bs, b) && Finds(g, id, cs, c)
    ensures bs == cs && b == c
  {
    hide WellFormed, Before, Superseded, ShortcutAt;
    if bs != [] {
      FindsGoesOn(g, id, bs, cs, c);
    }
    if cs != [] {
      FindsGoesOn(g, id, cs, bs, b);
    }
  }
}
