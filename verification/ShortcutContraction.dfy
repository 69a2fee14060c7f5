/** The two ways between a shortcut and its edges. The shortcut builder contracts a road through nodes
    where no other edge could be part of a shortcut; recovering the shortcut leads to exactly the
    contracted edges, and looking up exactly these edges leads back to the shortcut. */
module ShortcutContraction {
  import opened TileHierarchy
  import opened Wrappers
  import opened RoadGraph
  import opened ShortcutLookup
  import SR = ShortcutRecovery
  import NN = NhvrNetworks

  // ---------------------------------------------------------------------------------------------
  // What the shortcut builder leaves behind

  /** EdgesMatch for two edges that leave the same node: they end at different nodes, their access
      matches with one of them turned around, neither has signs or is a roundabout, the rest is equal. */
  predicate EdgesMatch(a: DirectedEdge, b: DirectedEdge) {
    && a.endnode != b.endnode && a.use == b.use
    && a.traits.forwardAccess == b.traits.reverseAccess && a.traits.reverseAccess == b.traits.forwardAccess
    && !a.traits.sign && !b.traits.sign && !a.traits.roundabout && !b.traits.roundabout
    && SameClass(a.traits, b.traits)
  }

  predicate SameClass(a: Traits, b: Traits) {
    && a.classification == b.classification && a.link == b.link && a.toll == b.toll && a.destOnly == b.destOnly
    && a.destOnlyHgv == b.destOnlyHgv && a.unpaved == b.unpaved && a.surface == b.surface
  }

  /** The node between `p` and `e` is contracted: their road is the only one there that could be part of
      a shortcut, the edges match, the inbound edge has no signs, neither edge has a tag of NHVR networks,
      and no shortcut begins there. */
  ghost predicate ContractsThrough(g: Graph, p: GraphId, e: GraphId)
    requires WellFormed(g)
  {
    && ValidEdge(g, p) && ValidEdge(g, e) && End(g, p) == Start(g, e) && Opposing(g, p).Some?
    && (forall d | ValidEdge(g, d) && Start(g, d) == Start(g, e) ::
          Edge(g, d).CanFormShortcut() <==> d == e || Opposing(g, p) == Some(d))
    && ValidEdge(g, Opposing(g, p).value) && EdgesMatch(Edge(g, Opposing(g, p).value), Edge(g, e))
    && !Edge(g, p).traits.sign && !ShortcutAt(g, Start(g, e))
    && Edge(g, Opposing(g, p).value).nhvrTag.None? && Edge(g, e).nhvrTag.None?
  }

  /** Shortcut `sc` was contracted from the two or more edges `es`. It starts as a copy of the first,
      which has no tag of NHVR networks and which it supersedes, and ends where the last does. Its own edge
      information has no tags and no names. */
  ghost predicate Contracted(g: Graph, sc: GraphId, es: seq<GraphId>)
    requires WellFormed(g)
  {
    && |es| >= 2 && AllValid(g, es) && Edge(g, es[0]).CanFormShortcut() && Edge(g, es[0]).nhvrTag.None?
    && OnShortcutLevel(es[0]) && Superseded(g, es[0]) && ShortcutOf(g, es[0]) == sc
    && (forall i | 0 <= i < |es| - 1 :: ContractsThrough(g, es[i], es[i + 1]))
    && ValidEdge(g, sc) && End(g, sc) == End(g, es[|es| - 1])
    && Edge(g, sc).traits == Edge(g, es[0]).traits && Edge(g, sc).use == Edge(g, es[0]).use
    && Edge(g, sc).nhvrTag.None? && Edge(g, sc).names == []
  }

  /** The numbering of the shortcuts at a node: the number that supersedes `e` is the place of a shortcut
      there, and no other edge and no other shortcut there has it. */
  ghost predicate Numbered(g: Graph, e: GraphId)
    requires WellFormed(g) && ValidEdge(g, e) && Superseded(g, e)
  {
    var sc := ShortcutOf(g, e);
    && Leaves(g, sc, Start(g, e)) && ValidEdge(g, sc) && Edge(g, sc).isShortcut
    && SR.CommonBit(Edge(g, sc).shortcutMask, Edge(g, e).superseded)
    && (forall d | ValidEdge(g, d) && Start(g, d) == Start(g, e) && d != e ::
          !SR.CommonBit(Edge(g, sc).shortcutMask, Edge(g, d).superseded))
    && (forall d | ValidEdge(g, d) && Start(g, d) == Start(g, e) && Edge(g, d).isShortcut && d != sc ::
          !SR.CommonBit(Edge(g, d).shortcutMask, Edge(g, e).superseded))
  }

  ghost predicate HasContraction(g: Graph, e: GraphId)
    requires WellFormed(g) && ValidEdge(g, e) && Superseded(g, e)
  {
    exists es :: Contracted(g, ShortcutOf(g, e), es) && es[0] == e
  }

  /** Every superseded edge is numbered, and is the first of those its shortcut was contracted from. */
  ghost predicate Built(g: Graph)
    requires WellFormed(g)
  {
    forall e | ValidEdge(g, e) && OnShortcutLevel(e) && Superseded(g, e) :: Numbered(g, e) && HasContraction(g, e)
  }

  lemma ContractionStepsBack(g: Graph, p: GraphId, e: GraphId)
    requires WellFormed(g) && ContractsThrough(g, p, e)
    ensures Before(g, e) == Some(p) && Edge(g, e).CanFormShortcut()
    ensures Opposing(g, p) != Some(e) && End(g, e) != Start(g, p)
  {
    hide WellFormed, Opposing, ShortcutAt, Start, Continuing;
    var o := Opposing(g, p).value;
    OpposingTurnsAround(g, p);
    assert Start(g, o) == Start(g, e);
    OnlyOtherContinues(g, Start(g, e), e, o);
  }

  lemma OnlyOtherContinues(g: Graph, n: GraphId, skip: GraphId, c: GraphId)
    requires WellFormed(g) && ValidNode(g, n) && ValidEdge(g, c) && Start(g, c) == n && c != skip
    requires forall d | ValidEdge(g, d) && Start(g, d) == n :: Edge(g, d).CanFormShortcut() <==> d == skip || d == c
    ensures Continuing(g, n, skip) == Some(c)
  {
    hide WellFormed;
    OutEdgesValid(g, n);
    var out := OutEdges(g, n);
    OthersAre(g, out, skip, c);
  }

  lemma {:induction false} OthersAre(g: Graph, es: seq<GraphId>, skip: GraphId, c: GraphId)
    requires AllValid(g, es) && c != skip
    requires forall i, j :: 0 <= i < j < |es| ==> es[i] != es[j]
    requires forall d | d in es && d != skip :: Edge(g, d).CanFormShortcut() <==> d == c
    ensures Others(g, es, skip) == if c in es then [c] else []
  {
    hide DirectedEdge.CanFormShortcut;
    if es != [] {
      var rest, last := es[..|es| - 1], es[|es| - 1];
      assert es == rest + [last];
      assert last !in rest;
      OthersAre(g, rest, skip, c);
    }
  }

  // ---------------------------------------------------------------------------------------------
  // The contracted edges among themselves

  lemma ContractedIsValid(g: Graph, sc: GraphId, es: seq<GraphId>)
    requires WellFormed(g) && Contracted(g, sc, es)
    ensures ValidEdge(g, sc) && AllValid(g, es)
    ensures forall i | 0 <= i < |es| - 1 :: ContractsThrough(g, es[i], es[i + 1])
  {
  }

  lemma {:induction false} ContractedOnLevel(g: Graph, sc: GraphId, es: seq<GraphId>, i: nat)
    requires WellFormed(g) && ShortcutLevels(g) && Contracted(g, sc, es) && i < |es|
    ensures ValidEdge(g, es[i]) && OnShortcutLevel(es[i]) && Edge(g, es[i]).CanFormShortcut()
  {
    hide WellFormed, ShortcutLevels, HalvesAgree, Start, Opposing, Before, EdgesMatch, ShortcutAt;
    if i > 0 {
      ContractedOnLevel(g, sc, es, i - 1);
      assert ContractsThrough(g, es[i - 1], es[i - 1 + 1]);
      ContractionStepsBack(g, es[i - 1], es[i]);
      EndOnLevel(g, es[i - 1]);
    }
  }

  lemma EndOnLevel(g: Graph, e: GraphId)
    requires WellFormed(g) && ShortcutLevels(g) && ValidEdge(g, e) && OnShortcutLevel(e)
    requires Edge(g, e).CanFormShortcut() || Edge(g, e).isShortcut
    ensures HalvesAgree(g, e) && OnShortcutLevel(End(g, e)) && !Edge(g, e).IsTransitLine()
    ensures End(g, e).tile in g ==> Opposing(g, e).Some?
  {
  }

  /** Only the first contracted edge is superseded. */
  lemma OnlyFirstSuperseded(g: Graph, sc: GraphId, es: seq<GraphId>, i: nat)
    requires WellFormed(g) && ShortcutLevels(g) && Built(g) && Contracted(g, sc, es) && 0 < i < |es|
    ensures ValidEdge(g, es[i]) && !Superseded(g, es[i]) && !ShortcutAt(g, Start(g, es[i]))
  {
    hide WellFormed, ShortcutLevels, Start, ShortcutOf, HasContraction, LowestBit;
    ContractedOnLevel(g, sc, es, i);
    assert ContractsThrough(g, es[i - 1], es[i - 1 + 1]);
    if Superseded(g, es[i]) {
      assert Numbered(g, es[i]);
      ShortcutBegins(g, es[i], ShortcutOf(g, es[i]));
    }
  }

  lemma ShortcutBegins(g: Graph, e: GraphId, sc: GraphId)
    requires WellFormed(g) && ValidEdge(g, e) && ValidEdge(g, sc) && Edge(g, sc).isShortcut
    requires Leaves(g, sc, Start(g, e))
    ensures ShortcutAt(g, Start(g, e)) && Start(g, sc) == Start(g, e)
  {
    OutEdgesValid(g, Start(g, e));
    assert sc in OutEdges(g, Start(g, e));
  }

  lemma MembersStepBack(g: Graph, sc: GraphId, es: seq<GraphId>, i: nat)
    requires WellFormed(g) && Contracted(g, sc, es) && 0 < i < |es|
    ensures ValidEdge(g, es[i]) && Before(g, es[i]) == Some(es[i - 1]) && Edge(g, es[i]).CanFormShortcut()
  {
    hide WellFormed, Before, Start, Opposing, EdgesMatch, ShortcutAt, ShortcutOf;
    assert ContractsThrough(g, es[i - 1], es[i - 1 + 1]);
    ContractionStepsBack(g, es[i - 1], es[i]);
  }

  lemma {:induction false} MembersDistinct(g: Graph, sc: GraphId, es: seq<GraphId>, i: nat, j: nat)
    requires WellFormed(g) && ShortcutLevels(g) && Built(g) && Contracted(g, sc, es) && i < j < |es|
    ensures es[i] != es[j]
  {
    hide WellFormed, ShortcutLevels, Built, Before, Contracted;
    OnlyFirstSuperseded(g, sc, es, j);
    if i == 0 {
      FirstIsSuperseded(g, sc, es);
    } else {
      MembersStepBack(g, sc, es, i);
      MembersStepBack(g, sc, es, j);
      MembersDistinct(g, sc, es, i - 1, j - 1);
    }
  }

  lemma FirstIsSuperseded(g: Graph, sc: GraphId, es: seq<GraphId>)
    requires WellFormed(g) && Contracted(g, sc, es)
    ensures |es| >= 2 && AllValid(g, es) && Superseded(g, es[0]) && ShortcutOf(g, es[0]) == sc
  {
  }

  // ---------------------------------------------------------------------------------------------
  // Looking up a contracted edge, and only such an edge, finds the shortcut

  /** The edges before number j, from number j itself down to number 1. */
  function PathBack(es: seq<GraphId>, j: nat): (bs: seq<GraphId>)
    requires j < |es|
    ensures |bs| == j && forall i | 0 <= i < j :: bs[i] == es[j - i]
  {
    seq(j, i requires 0 <= i < j => es[j - i])
  }

  /** Looking up any of the edges a shortcut was contracted from finds that shortcut again. */
  lemma MembersFindTheirShortcut(g: Graph, sc: GraphId, es: seq<GraphId>, j: nat)
    requires WellFormed(g) && ShortcutLevels(g) && Built(g) && Contracted(g, sc, es) && j < |es|
    ensures Finds(g, es[j], PathBack(es, j), es[0]) && ShortcutOf(g, es[0]) == sc
  {
    hide WellFormed, ShortcutLevels, Built, Contracted, Before, Superseded, ShortcutAt, ShortcutOf, Start;
    FirstIsSuperseded(g, sc, es);
    var id, bs := es[j], PathBack(es, j);
    forall i | 0 <= i < |bs|
      ensures ValidEdge(g, bs[i]) && !Superseded(g, bs[i]) && !ShortcutAt(g, Start(g, bs[i]))
      ensures i < |bs| - 1 ==> StepsBack(g, id, bs[i], bs[i + 1])
    {
      assert bs[i] == es[j - i];
      OnlyFirstSuperseded(g, sc, es, j - i);
      MembersStepBack(g, sc, es, j - i);
      if i < |bs| - 1 {
        assert bs[i + 1] == es[j - i - 1];
        MembersDistinct(g, sc, es, j - i - 1, j);
      }
    }
    if j > 0 {
      assert bs[|bs| - 1] == es[1];
      MembersStepBack(g, sc, es, 1);
      MembersDistinct(g, sc, es, 0, j);
    }
  }

  /** Where the last contracted edge ends, the opposing shortcut begins, unless it leaves the tile set. */
  lemma OpposingBeginsAtEnd(g: Graph, sc: GraphId, es: seq<GraphId>, b: GraphId)
    requires WellFormed(g) && ShortcutLevels(g) && Built(g) && Contracted(g, sc, es)
    requires ValidEdge(g, b) && Start(g, b) == End(g, es[|es| - 1])
    ensures ShortcutAt(g, Start(g, b))
  {
    hide WellFormed, ShortcutLevels, Start, ShortcutAt, ContractsThrough, LowestBit, HasContraction;
    var e := es[0];
    assert Numbered(g, e) && Edge(g, sc).isShortcut;
    EndOnLevel(g, sc);
    OpposingTurnsAround(g, sc);
    var o := Opposing(g, sc).value;
    ShortcutBegins(g, b, o);
  }

  lemma {:induction false} ChainIsMember(g: Graph, sc: GraphId, es: seq<GraphId>, id: GraphId, bs: seq<GraphId>, k: nat)
    requires WellFormed(g) && ShortcutLevels(g) && Built(g) && Contracted(g, sc, es) && OnShortcutLevel(id)
    requires WalkedBack(g, id, bs) && ValidEdge(g, bs[|bs| - 1]) && Before(g, bs[|bs| - 1]) == Some(es[0])
    requires k < |bs|
    ensures k + 1 < |es| && bs[|bs| - 1 - k] == es[k + 1]
  {
    hide WellFormed, ShortcutLevels, Built, Contracted, Before, Superseded, ShortcutAt, ShortcutOf, Start,
      OnShortcutLevel;
    FirstIsSuperseded(g, sc, es);
    var i := |bs| - 1 - k;
    var b := bs[i];
    BackChainOnLevel(g, id, bs, i);
    if k > 0 {
      ChainIsMember(g, sc, es, id, bs, k - 1);
      assert StepsBack(g, id, bs[i], bs[i + 1]);
    }
    assert ValidEdge(g, b) && Before(g, b) == Some(es[k]);
    BeforeLeadsTo(g, b);
    if k + 1 == |es| {
      OpposingBeginsAtEnd(g, sc, es, b);
    } else {
      MembersStepBack(g, sc, es, k + 1);
      ContractedOnLevel(g, sc, es, k + 1);
      BeforeIsInjective(g, es[k + 1], b);
    }
  }

  /** A search finds a shortcut only from an edge that the shortcut was contracted from. */
  lemma FoundIsMember(g: Graph, id: GraphId, bs: seq<GraphId>, last: GraphId, es: seq<GraphId>)
    requires WellFormed(g) && ShortcutLevels(g) && Built(g) && OnShortcutLevel(id) && Finds(g, id, bs, last)
    requires Contracted(g, ShortcutOf(g, last), es) && es[0] == last
    ensures id in es
  {
    hide WellFormed, ShortcutLevels, Built, Contracted, Before, Superseded, ShortcutAt, ShortcutOf, Start,
      OnShortcutLevel;
    FirstIsSuperseded(g, ShortcutOf(g, last), es);
    if bs != [] {
      WalkedBackLast(g, id, bs);
      ChainIsMember(g, ShortcutOf(g, last), es, id, bs, |bs| - 1);
    }
  }

  lemma LastOnLevel(g: Graph, id: GraphId, bs: seq<GraphId>, last: GraphId)
    requires WellFormed(g) && ShortcutLevels(g) && OnShortcutLevel(id) && Finds(g, id, bs, last)
    ensures OnShortcutLevel(last)
  {
    hide WellFormed, ShortcutLevels, Before, Superseded, ShortcutAt, OnShortcutLevel;
    if bs != [] {
      WalkedBackLast(g, id, bs);
      BackChainOnLevel(g, id, bs, |bs| - 1);
      BeforeLeadsTo(g, bs[|bs| - 1]);
    }
  }

  lemma ContractionOf(g: Graph, e: GraphId) returns (es: seq<GraphId>)
    requires WellFormed(g) && Built(g) && ValidEdge(g, e) && OnShortcutLevel(e) && Superseded(g, e)
    ensures Contracted(g, ShortcutOf(g, e), es) && es != [] && es[0] == e
  {
    assert HasContraction(g, e);
    es :| Contracted(g, ShortcutOf(g, e), es) && es[0] == e;
  }

  /** Edge `id` is one of those that shortcut `sc` was contracted from. */
  ghost predicate PartOf(g: Graph, id: GraphId, sc: GraphId)
    requires WellFormed(g)
  {
    exists es :: Contracted(g, sc, es) && id in es
  }

  lemma RightAnswerIsMembership(g: Graph, id: GraphId, r: Lookup, bs: seq<GraphId>, last: GraphId, sc: GraphId)
    requires WellFormed(g) && ShortcutLevels(g) && Built(g) && OnShortcutLevel(id) && RightAnswer(g, id, r, bs, last)
    ensures r == Shortcut(sc) <==> PartOf(g, id, sc)
  {
    hide WellFormed, ShortcutLevels, Contracted, Finds, Superseded, ShortcutOf, OnShortcutLevel, RunsOff;
    if r == Shortcut(sc) {
      LastOnLevel(g, id, bs, last);
      FindsMeans(g, id, bs, last);
      var es := ContractionOf(g, last);
      FoundIsMember(g, id, bs, last, es);
    }
    if PartOf(g, id, sc) {
      var es :| Contracted(g, sc, es) && id in es;
      var j :| 0 <= j < |es| && es[j] == id;
      MembersFindTheirShortcut(g, sc, es, j);
      FindsUnique(g, id, bs, last, PathBack(es, j), es[0]);
    }
  }

  lemma PartOnLevel(g: Graph, id: GraphId, sc: GraphId)
    requires WellFormed(g) && ShortcutLevels(g) && PartOf(g, id, sc)
    ensures OnShortcutLevel(id)
  {
    hide WellFormed, ShortcutLevels, Contracted;
    var es :| Contracted(g, sc, es) && id in es;
    var j :| 0 <= j < |es| && es[j] == id;
    ContractedOnLevel(g, sc, es, j);
  }

  /** The look-up of an edge that is no shortcut finds exactly the shortcut it is part of, if it has an opposing edge.
      For an edge that leaves the tile set it finds nothing. */
  lemma AnswerIsMembership(g: Graph, id: GraphId, r: Lookup, bs: seq<GraphId>, last: GraphId, sc: GraphId)
    requires WellFormed(g) && ShortcutLevels(g) && Built(g) && ValidEdge(g, id) && !Edge(g, id).isShortcut
    requires LookedUp(g, id, r, bs, last)
    ensures r == Shortcut(sc) <==> PartOf(g, id, sc) && Opposing(g, id).Some?
  {
    hide WellFormed, ShortcutLevels, Built, RightAnswer, PartOf, OnShortcutLevel, Opposing;
    if OnShortcutLevel(id) && Opposing(g, id).Some? {
      RightAnswerIsMembership(g, id, r, bs, last, sc);
    } else if PartOf(g, id, sc) {
      PartOnLevel(g, id, sc);
    }
  }

  /** The shortcut that is found begins where the superseded edge does, and their masks have a bit in common. */
  lemma FoundSharesNumber(g: Graph, id: GraphId, r: Lookup, bs: seq<GraphId>, last: GraphId)
    requires WellFormed(g) && ShortcutLevels(g) && Built(g) && ValidEdge(g, id) && !Edge(g, id).isShortcut
    requires LookedUp(g, id, r, bs, last) && r.Shortcut?
    ensures ComesTo(g, id, bs, last) && ValidEdge(g, r.id) && Edge(g, r.id).isShortcut
    ensures Start(g, r.id) == Start(g, last) && Edge(g, r.id).shortcutMask & Edge(g, last).superseded != 0
  {
    hide WellFormed, ShortcutLevels, Start, ShortcutOf, HasContraction, ComesTo, Finds, RunsOff;
    LastOnLevel(g, id, bs, last);
    FindsIff(g, id, bs, last);
    FindsMeans(g, id, bs, last);
    assert Numbered(g, last);
    ShortcutBegins(g, last, r.id);
  }

  // ---------------------------------------------------------------------------------------------
  // Recovering the shortcut

  /** The two halves of a road look the same, with the access turned around. */
  predicate Mirrors(a: DirectedEdge, b: DirectedEdge) {
    && a.use == b.use && a.traits.roundabout == b.traits.roundabout
    && a.traits.forwardAccess == b.traits.reverseAccess && a.traits.reverseAccess == b.traits.forwardAccess
    && SameClass(a.traits, b.traits)
  }

  ghost predicate HalvesMirror(g: Graph)
    requires WellFormed(g)
  {
    forall e | ValidEdge(g, e) && OnShortcutLevel(e) && Edge(g, e).CanFormShortcut() && Opposing(g, e).Some? ::
      ValidEdge(g, Opposing(g, e).value) && Mirrors(Edge(g, e), Edge(g, Opposing(g, e).value))
  }

  lemma MatchingLooksTheSame(g: Graph, p: GraphId, e: GraphId)
    requires WellFormed(g) && HalvesMirror(g) && ContractsThrough(g, p, e) && OnShortcutLevel(p)
    requires Edge(g, p).CanFormShortcut()
    ensures Edge(g, p).traits == Edge(g, e).traits && Edge(g, p).use == Edge(g, e).use
  {
  }

  /** Contracted edges look the same as the shortcut. */
  lemma {:induction false} MembersLookTheSame(g: Graph, sc: GraphId, es: seq<GraphId>, i: nat)
    requires WellFormed(g) && ShortcutLevels(g) && HalvesMirror(g) && Contracted(g, sc, es) && i < |es|
    ensures ValidEdge(g, es[i]) && SR.SameEnough(Edge(g, es[i]), Edge(g, sc))
  {
    hide WellFormed, ShortcutLevels, HalvesMirror, Start, Opposing, EdgesMatch, ShortcutAt, ShortcutOf;
    if i > 0 {
      var p := es[i - 1];
      assert ContractsThrough(g, p, es[i - 1 + 1]);
      ContractedOnLevel(g, sc, es, i - 1);
      MembersLookTheSame(g, sc, es, i - 1);
      MatchingLooksTheSame(g, p, es[i]);
      ContractionStepsBack(g, p, es[i]);
    }
  }

  /** The contracted road never comes back along itself. */
  lemma {:induction false} NeverComesBack(g: Graph, sc: GraphId, es: seq<GraphId>, i: nat, j: nat)
    requires WellFormed(g) && Contracted(g, sc, es) && i < j < |es|
    ensures ValidEdge(g, es[i]) && Opposing(g, es[i]) != Some(es[j])
    decreases j - i
  {
    hide WellFormed, Before, Start, Opposing, Contracted, ContractsThrough;
    ContractedIsValid(g, sc, es);
    assert ContractsThrough(g, es[i], es[i + 1]) && ContractsThrough(g, es[j - 1], es[j - 1 + 1]);
    ContractionStepsBack(g, es[i], es[i + 1]);
    if Opposing(g, es[i]) == Some(es[j]) {
      TurnsInside(g, es[i], es[i + 1], es[j - 1], es[j]);
      OpposingTurnsAround(g, es[j - 1]);
      if i + 1 < j - 1 {
        NeverComesBack(g, sc, es, i + 1, j - 1);
      }
    }
  }

  /** Where a contracted road came back along itself, it would have turned further inside. */
  lemma TurnsInside(g: Graph, p: GraphId, e: GraphId, q: GraphId, f: GraphId)
    requires WellFormed(g) && ContractsThrough(g, p, e) && ContractsThrough(g, q, f) && Opposing(g, p) == Some(f)
    ensures Opposing(g, q) == Some(e) && q != e
  {
    hide WellFormed, Before, Start, Opposing, EdgesMatch, ShortcutAt;
    ContractionStepsBack(g, q, f);
    OpposingTurnsAround(g, p);
    OpposingTurnsAround(g, q);
    assert Start(g, Opposing(g, q).value) == Start(g, e);
  }

  /** The contracted road does not come by its end before. */
  lemma EndsOnce(g: Graph, sc: GraphId, es: seq<GraphId>, i: nat)
    requires WellFormed(g) && ShortcutLevels(g) && Built(g) && Contracted(g, sc, es) && i < |es| - 1
    ensures ValidEdge(g, es[i]) && End(g, es[i]) != End(g, sc)
  {
    hide WellFormed, ShortcutLevels, Built, Before, Start, Opposing, EdgesMatch, ShortcutAt, ShortcutOf;
    var last := es[|es| - 1];
    assert ContractsThrough(g, es[i], es[i + 1]);
    if End(g, es[i]) == End(g, sc) {
      ContractedOnLevel(g, sc, es, |es| - 1);
      EndOnLevel(g, last);
      OpposingTurnsAround(g, last);
      MembersStepBack(g, sc, es, |es| - 1);
      LastTurnedAround(g, sc, es, i);
    }
  }

  lemma LastTurnedAround(g: Graph, sc: GraphId, es: seq<GraphId>, i: nat)
    requires WellFormed(g) && ShortcutLevels(g) && Built(g) && Contracted(g, sc, es) && i < |es| - 1
    requires ValidEdge(g, es[|es| - 1]) && Opposing(g, es[|es| - 1]).Some? && ValidEdge(g, es[i])
    ensures Opposing(g, es[|es| - 1]) != Some(es[i + 1]) && Opposing(g, es[i]) != Opposing(g, es[|es| - 1])
  {
    hide WellFormed, ShortcutLevels, Built, Start, Opposing, EdgesMatch, ShortcutAt, ShortcutOf, ContractsThrough;
    var last := es[|es| - 1];
    OpposingTurnsAround(g, last);
    MembersDistinct(g, sc, es, i, |es| - 1);
    if Opposing(g, es[i]) == Opposing(g, last) {
      OpposingTurnsAround(g, es[i]);
    }
    if Opposing(g, last) == Some(es[i + 1]) && i + 1 < |es| - 1 {
      NeverComesBack(g, sc, es, i + 1, |es| - 1);
    }
  }

  predicate Fits(edge: DirectedEdge, shortcut: DirectedEdge, from: GraphId) {
    from != edge.endnode && SR.SameEnough(edge, shortcut)
  }

  lemma {:induction false} FirstFittingIs(g: Graph, es: seq<GraphId>, shortcut: DirectedEdge, from: GraphId, e: GraphId)
    requires AllValid(g, es) && e in es && Fits(Edge(g, e), shortcut, from)
    requires forall d | d in es && d != e :: !Fits(Edge(g, d), shortcut, from)
    ensures SR.FirstFitting(g, es, shortcut, from) == Some(e)
  {
    hide SR.SameEnough;
    if es[0] != e {
      FirstFittingIs(g, es[1..], shortcut, from, e);
    }
  }

  lemma {:induction false} FirstSupersededIs(g: Graph, es: seq<GraphId>, mask: bv7, e: GraphId)
    requires AllValid(g, es) && e in es && SR.CommonBit(mask, Edge(g, e).superseded)
    requires forall d | d in es && d != e :: !SR.CommonBit(mask, Edge(g, d).superseded)
    ensures SR.FirstSuperseded(g, es, mask) == Some(e)
  {
    hide SR.CommonBit;
    if es[0] != e {
      FirstSupersededIs(g, es[1..], mask, e);
    }
  }

  lemma FirstStepIs(g: Graph, sc: GraphId, e: GraphId)
    requires WellFormed(g) && ValidEdge(g, e) && Superseded(g, e) && Numbered(g, e) && ShortcutOf(g, e) == sc
    ensures SR.FirstStep(g, sc) == Some(e)
  {
    hide WellFormed, Start, SR.CommonBit, Superseded;
    ShortcutBegins(g, e, sc);
    OutEdgesValid(g, Start(g, sc));
    FirstSupersededIs(g, OutEdges(g, Start(g, sc)), Edge(g, sc).shortcutMask, e);
  }

  /** No second candidate: of the edges at a contracted node, only the next contracted one looks like the
      shortcut and does not lead straight back. */
  lemma OnlyNextFits(g: Graph, sc: GraphId, es: seq<GraphId>, i: nat, d: GraphId)
    requires WellFormed(g) && ShortcutLevels(g) && Contracted(g, sc, es) && i + 1 < |es|
    requires ValidEdge(g, d) && Start(g, d) == Start(g, es[i + 1])
    requires Fits(Edge(g, d), Edge(g, sc), Start(g, es[i]))
    ensures d == es[i + 1]
  {
    hide WellFormed, Start, Opposing, EdgesMatch, ShortcutAt, ShortcutOf, HalvesAgree;
    assert ContractsThrough(g, es[i], es[i + 1]);
    ContractedOnLevel(g, sc, es, i + 1);
    OpposingTurnsAround(g, es[i]);
  }

  lemma NextMember(g: Graph, sc: GraphId, es: seq<GraphId>, i: nat)
    requires WellFormed(g) && ShortcutLevels(g) && HalvesMirror(g) && Contracted(g, sc, es) && i + 1 < |es|
    ensures ValidEdge(g, sc) && ValidEdge(g, es[i]) && ValidEdge(g, es[i + 1]) && End(g, es[i]) == Start(g, es[i + 1])
    ensures Fits(Edge(g, es[i + 1]), Edge(g, sc), Start(g, es[i]))
  {
    hide WellFormed, ShortcutLevels, HalvesMirror, Start, Opposing, EdgesMatch, ShortcutAt, ShortcutOf, SR.SameEnough;
    assert ContractsThrough(g, es[i], es[i + 1]);
    ContractionStepsBack(g, es[i], es[i + 1]);
    MembersLookTheSame(g, sc, es, i + 1);
  }

  /** Recovering the shortcut takes the contracted road's next edge. */
  lemma NextStepIs(g: Graph, sc: GraphId, es: seq<GraphId>, i: nat)
    requires WellFormed(g) && ShortcutLevels(g) && HalvesMirror(g) && Contracted(g, sc, es) && i + 1 < |es|
    ensures SR.NextStep(g, sc, es[i]) == Some(es[i + 1])
  {
    hide WellFormed, ShortcutLevels, HalvesMirror, Start, Contracted, SR.SameEnough, SR.FirstFitting, Fits;
    NextMember(g, sc, es, i);
    var n := End(g, es[i]);
    OutEdgesValid(g, n);
    var out := OutEdges(g, n);
    forall d | d in out && d != es[i + 1]
      ensures !Fits(Edge(g, d), Edge(g, sc), Start(g, es[i]))
    {
      if Fits(Edge(g, d), Edge(g, sc), Start(g, es[i])) {
        OnlyNextFits(g, sc, es, i, d);
      }
    }
    FirstFittingIs(g, out, Edge(g, sc), Start(g, es[i]), es[i + 1]);
  }

  lemma ShortcutIsThere(g: Graph, sc: GraphId, es: seq<GraphId>)
    requires WellFormed(g) && Built(g) && Contracted(g, sc, es)
    ensures ValidEdge(g, sc) && Edge(g, sc).isShortcut && Start(g, sc) == Start(g, es[0])
    ensures SR.FirstStep(g, sc) == Some(es[0])
  {
    hide WellFormed, Start, ShortcutAt, SR.CommonBit, SR.FirstStep, LowestBit, HasContraction, ContractsThrough;
    assert Numbered(g, es[0]);
    ShortcutBegins(g, es[0], sc);
    FirstStepIs(g, sc, es[0]);
  }

  /** What every prefix of a road leaves for the rest: at least one unit of length for each edge. */
  lemma {:induction false} LengthOfPrefix(g: Graph, es: seq<GraphId>, k: nat)
    requires AllValid(g, es) && SR.LengthsInRange(g) && k <= |es|
    ensures AllValid(g, es[..k]) && SR.Length(g, es[..k]) + |es| - k <= SR.Length(g, es)
  {
    if k == |es| {
      assert es[..k] == es;
    } else {
      var most := es[..|es| - 1];
      assert most[..k] == es[..k];
      LengthOfPrefix(g, most, k);
    }
  }

  /** A road that is not too long in the end was never too long: the tolerance grows by less than one for
      every edge. */
  lemma NeverTooLongIff(g: Graph, sc: GraphId, es: seq<GraphId>)
    requires ValidEdge(g, sc) && AllValid(g, es) && SR.LengthsInRange(g) && |es| > 1
    ensures SR.NeverTooLong(g, sc, es) <==> SR.Length(g, es) <= Edge(g, sc).length + SR.RoundoffError(|es|)
  {
    hide SR.Length, SR.LengthsInRange;
    assert es[..|es|] == es;
    if SR.Length(g, es) <= Edge(g, sc).length + SR.RoundoffError(|es|) {
      forall k | 1 < k <= |es|
        ensures SR.NotTooLongAt(g, sc, es, k)
      {
        LengthOfPrefix(g, es, k);
      }
    } else {
      assert !SR.NotTooLongAt(g, sc, es, |es|);
    }
  }

  /** The roundoff error is one more than half the number of edges, rounded up. */
  lemma HalfTheEdges(n: nat)
    requires n >= 2
    ensures SR.RoundoffError(n) == (n + 1) / 2 + 1
  {
  }

  /** A shortcut is recovered as the edges it was contracted from exactly when its opposing edge is there, the
      lengths differ by no more than the roundoff error, and that is no more than the shortcut's length. */
  lemma RecoveredIff(g: Graph, sc: GraphId, es: seq<GraphId>)
    requires WellFormed(g) && ShortcutLevels(g) && HalvesMirror(g) && Built(g) && Contracted(g, sc, es)
    requires SR.LengthsInRange(g)
    ensures var roundoff := (|es| + 1) / 2 + 1;
            SR.Expansion(g, sc, es) <==>
              && Opposing(g, sc).Some? && roundoff <= Edge(g, sc).length
              && Edge(g, sc).length - roundoff <= SR.Length(g, es) <= Edge(g, sc).length + roundoff
  {
    hide WellFormed, ShortcutLevels, HalvesMirror, Built, Opposing, ContractsThrough, ShortcutOf, SR.NextStep,
      SR.FirstStep, SR.NeverTooLong, SR.Length, SR.RoundoffError, SR.LengthsInRange, Superseded;
    ShortcutIsThere(g, sc, es);
    HalfTheEdges(|es|);
    NeverTooLongIff(g, sc, es);
    forall i | 0 <= i < |es| - 1
      ensures End(g, es[i]) != End(g, sc) && SR.NextStep(g, sc, es[i]) == Some(es[i + 1])
    {
      EndsOnce(g, sc, es, i);
      NextStepIs(g, sc, es, i);
    }
  }

  /** A walk that recovers the shortcut takes the contracted edges. */
  lemma {:induction false} WalkIsContraction(g: Graph, sc: GraphId, es: seq<GraphId>, fs: seq<GraphId>, i: nat)
    requires WellFormed(g) && ShortcutLevels(g) && HalvesMirror(g) && Built(g) && Contracted(g, sc, es)
    requires SR.Walk(g, sc, fs) && i < |fs|
    ensures i < |es| && fs[i] == es[i]
  {
    hide WellFormed, ShortcutLevels, HalvesMirror, Built, Opposing, ContractsThrough, ShortcutOf, SR.NextStep,
      SR.FirstStep, SR.NeverTooLong, Superseded;
    ShortcutIsThere(g, sc, es);
    if i > 0 {
      WalkIsContraction(g, sc, es, fs, i - 1);
      assert End(g, fs[i - 1]) != End(g, sc) && SR.NextStep(g, sc, fs[i - 1]) == Some(fs[i - 1 + 1]);
      NextStepIs(g, sc, es, i - 1);
    }
  }

  lemma FirstOfExpansion(g: Graph, sc: GraphId, fs: seq<GraphId>)
    requires WellFormed(g) && Built(g) && ValidEdge(g, sc) && OnShortcutLevel(sc) && SR.Expansion(g, sc, fs)
    ensures fs != [] && ValidEdge(g, fs[0]) && OnShortcutLevel(fs[0]) && Superseded(g, fs[0])
    ensures ShortcutOf(g, fs[0]) == sc
  {
    hide WellFormed, Start, ShortcutOf, LowestBit, HasContraction, SR.FirstStep, SR.NextStep, SR.NeverTooLong,
      SR.Length;
    SR.FirstStepFits(g, sc);
    assert Superseded(g, fs[0]) && Numbered(g, fs[0]);
  }

  /** Whatever a shortcut is recovered as, is what it was contracted from. */
  lemma ExpansionIsContraction(g: Graph, sc: GraphId, es: seq<GraphId>, fs: seq<GraphId>)
    requires WellFormed(g) && ShortcutLevels(g) && HalvesMirror(g) && Built(g) && Contracted(g, sc, es)
    requires SR.Expansion(g, sc, fs)
    ensures fs == es
  {
    hide WellFormed, ShortcutLevels, HalvesMirror, Built, Opposing, ContractsThrough, ShortcutOf, Superseded,
      SR.NextStep, SR.FirstStep, SR.NeverTooLong;
    forall i | 0 <= i < |fs|
      ensures i < |es| && fs[i] == es[i]
    {
      WalkIsContraction(g, sc, es, fs, i);
    }
    WalkIsContraction(g, sc, es, fs, |fs| - 1);
    if |fs| < |es| {
      EndsOnce(g, sc, es, |fs| - 1);
    }
  }

  // ---------------------------------------------------------------------------------------------
  // Both ways together

  ghost predicate SoundTiles(g: Graph) {
    WellFormed(g) && ShortcutLevels(g) && HalvesMirror(g) && Built(g) && SR.LengthsInRange(g)
  }

  /** Recovered edges are no shortcuts and have opposing edges. */
  lemma RecoveredCanBeLookedUp(g: Graph, sc: GraphId, fs: seq<GraphId>, j: nat)
    requires WellFormed(g) && ShortcutLevels(g) && Contracted(g, sc, fs) && Opposing(g, sc).Some? && j < |fs|
    ensures ValidEdge(g, fs[j]) && OnShortcutLevel(fs[j]) && !Edge(g, fs[j]).isShortcut && Opposing(g, fs[j]).Some?
  {
    hide WellFormed, ShortcutLevels, ShortcutOf, ShortcutAt, EdgesMatch, Superseded;
    ContractedOnLevel(g, sc, fs, j);
    if j > 0 {
      MembersStepBack(g, sc, fs, j);
    }
    EndOnLevel(g, fs[j]);
    if j < |fs| - 1 {
      assert ContractsThrough(g, fs[j], fs[j + 1]);
    }
  }

  lemma ExpansionOfBuilt(g: Graph, sc: GraphId, fs: seq<GraphId>)
    requires SoundTiles(g) && ValidEdge(g, sc) && OnShortcutLevel(sc) && SR.Expansion(g, sc, fs)
    ensures Contracted(g, sc, fs) && Opposing(g, sc).Some?
    ensures forall e | e in fs :: PartOf(g, e, sc)
  {
    hide WellFormed, ShortcutLevels, HalvesMirror, Built, SR.LengthsInRange, Contracted, Opposing,
      ShortcutOf, Superseded, SR.NextStep, SR.FirstStep, SR.NeverTooLong;
    FirstOfExpansion(g, sc, fs);
    var es := ContractionOf(g, fs[0]);
    ExpansionIsContraction(g, sc, es, fs);
  }

  lemma ShortcutOfPart(g: Graph, id: GraphId, sc: GraphId)
    requires WellFormed(g) && Built(g) && PartOf(g, id, sc)
    ensures ValidEdge(g, sc) && OnShortcutLevel(sc) && Edge(g, sc).isShortcut
  {
    hide WellFormed, Built, ContractsThrough, Superseded;
    var es :| Contracted(g, sc, es) && id in es;
    ShortcutIsThere(g, sc, es);
  }

  lemma RecoveredWithPart(g: Graph, id: GraphId, sc: GraphId, fs: seq<GraphId>)
    requires SoundTiles(g) && PartOf(g, id, sc) && ValidEdge(g, sc) && SR.Expansion(g, sc, fs)
    ensures id in fs
  {
    hide WellFormed, ShortcutLevels, HalvesMirror, Built, SR.LengthsInRange, Contracted, Opposing, SR.Walk;
    var es :| Contracted(g, sc, es) && id in es;
    ExpansionIsContraction(g, sc, es, fs);
  }

  /** Looking up every edge that a shortcut is recovered as gives that shortcut. */
  method RecoverThenLookUp(g: Graph, sc: GraphId) returns (edges: seq<GraphId>, found: seq<Lookup>)
    requires SoundTiles(g) && ValidEdge(g, sc) && OnShortcutLevel(sc) && Edge(g, sc).isShortcut
    ensures edges == [sc] || (SR.Expansion(g, sc, edges) && Contracted(g, sc, edges))
    ensures |found| == |edges| && forall r | r in found :: r == Shortcut(sc)
  {
    hide WellFormed, ShortcutLevels, HalvesMirror, Built, SR.LengthsInRange, Contracted, SR.Walk, Opposing,
      OnShortcutLevel, SR.Length;
    edges := SR.RecoverShortcut(g, sc);
    if edges != [sc] {
      ExpansionOfBuilt(g, sc, edges);
    }
    found := [];
    for i := 0 to |edges|
      invariant |found| == i && forall r | r in found :: r == Shortcut(sc)
    {
      if edges != [sc] {
        RecoveredCanBeLookedUp(g, sc, edges, i);
      }
      var r, back, last := GetShortcut(g, edges[i]);
      if edges != [sc] {
        AnswerIsMembership(g, edges[i], r, back, last, sc);
      }
      found := found + [r];
    }
  }

  /** The shortcut that is found for an edge is one, and when it can be recovered the edge is among what
      it is recovered as. */
  method LookUpThenRecover(g: Graph, id: GraphId) returns (r: Lookup, edges: seq<GraphId>)
    requires SoundTiles(g) && ValidEdge(g, id) && !Edge(g, id).isShortcut
    ensures forall sc :: r == Shortcut(sc) <==> PartOf(g, id, sc) && Opposing(g, id).Some?
    ensures r.Shortcut? ==> ValidEdge(g, r.id) && Edge(g, r.id).isShortcut
    ensures r.Shortcut? ==> edges == [r.id] || (SR.Expansion(g, r.id, edges) && id in edges)
  {
    hide WellFormed, ShortcutLevels, HalvesMirror, Built, SR.LengthsInRange, Contracted, SR.Walk, Opposing,
      OnShortcutLevel, SR.Length, PartOf, LookedUp;
    ghost var back, last;
    r, back, last := GetShortcut(g, id);
    edges := [];
    forall sc
      ensures r == Shortcut(sc) <==> PartOf(g, id, sc) && Opposing(g, id).Some?
    {
      AnswerIsMembership(g, id, r, back, last, sc);
    }
    if r.Shortcut? {
      ShortcutOfPart(g, id, r.id);
      edges := SR.RecoverShortcut(g, r.id);
      if edges != [r.id] {
        RecoveredWithPart(g, id, r.id, edges);
      }
    }
  }

  // ---------------------------------------------------------------------------------------------
  // The filled cache

  lemma OppositeIsOpposed(g: Graph, sc: GraphId, es: seq<GraphId>)
    requires WellFormed(g) && ShortcutLevels(g) && Contracted(g, sc, es) && Opposing(g, sc).Some?
    ensures SR.AllOpposed(g, es)
  {
    hide WellFormed, ShortcutLevels, Opposing, Contracted;
    forall e | e in es
      ensures ValidEdge(g, e) && Opposing(g, e).Some?
    {
      var j :| 0 <= j < |es| && es[j] == e;
      RecoveredCanBeLookedUp(g, sc, es, j);
    }
  }

  /** Of two contracted edges, seen from the other side: their other halves follow each other, and nothing else goes
      on from the one. */
  lemma OnlyWayBack(g: Graph, p: GraphId, e: GraphId, q: GraphId, f: GraphId)
    requires WellFormed(g) && ContractsThrough(g, p, e) && Opposing(g, e) == Some(q) && ContractsThrough(g, q, f)
    ensures Opposing(g, p) == Some(f)
  {
    hide WellFormed, Opposing, EdgesMatch, ShortcutAt, Start;
    OpposingTurnsAround(g, e);
    ContractionStepsBack(g, q, f);
  }

  /** As long as both go on, the shortcut of the other half is contracted from the mirrored road. */
  lemma {:induction false} MirrorGoesAlong(g: Graph, sc: GraphId, es: seq<GraphId>, k: GraphId, gs: seq<GraphId>,
                                           i: nat)
    requires WellFormed(g) && Contracted(g, sc, es) && Contracted(g, k, gs) && SR.AllOpposed(g, es)
    requires Opposing(g, es[|es| - 1]) == Some(gs[0]) && i < |es| && i < |gs|
    ensures Opposing(g, es[|es| - 1 - i]) == Some(gs[i])
  {
    hide WellFormed, Opposing, Contracted, ContractsThrough;
    ContractedIsValid(g, sc, es);
    ContractedIsValid(g, k, gs);
    if i > 0 {
      MirrorGoesAlong(g, sc, es, k, gs, i - 1);
      var j := |es| - 1 - i;
      assert ContractsThrough(g, es[j], es[j + 1]) && ContractsThrough(g, gs[i - 1], gs[i - 1 + 1]);
      OnlyWayBack(g, es[j], es[j + 1], gs[i - 1], gs[i]);
    }
  }

  lemma BeginsAt(g: Graph, sc: GraphId, es: seq<GraphId>)
    requires WellFormed(g) && Built(g) && Contracted(g, sc, es)
    ensures ValidEdge(g, es[0]) && ValidEdge(g, sc) && Start(g, es[0]) == Start(g, sc) && ShortcutAt(g, Start(g, sc))
  {
    hide WellFormed, Start, ShortcutAt, LowestBit, HasContraction, ContractsThrough, SR.FirstStep;
    ShortcutIsThere(g, sc, es);
    assert Numbered(g, es[0]);
    ShortcutBegins(g, es[0], sc);
  }

  /** Then it is contracted from all of it. */
  lemma MirrorIsContraction(g: Graph, sc: GraphId, es: seq<GraphId>, k: GraphId, gs: seq<GraphId>)
    requires WellFormed(g) && ShortcutLevels(g) && Built(g) && Contracted(g, sc, es) && Contracted(g, k, gs)
    requires Opposing(g, sc) == Some(k) && SR.AllOpposed(g, es) && Opposing(g, es[|es| - 1]) == Some(gs[0])
    ensures gs == SR.Mirror(g, es)
  {
    hide WellFormed, ShortcutLevels, Built, Opposing, Contracted, ContractsThrough, Start, ShortcutAt, Superseded,
      SR.Mirror;
    ContractedIsValid(g, sc, es);
    ContractedIsValid(g, k, gs);
    BeginsAt(g, sc, es);
    BeginsAt(g, k, gs);
    OpposingTurnsAround(g, sc);
    ContractedEnds(g, sc, es);
    ContractedEnds(g, k, gs);
    forall i | 0 <= i < |es| && i < |gs|
      ensures Opposing(g, es[|es| - 1 - i]) == Some(gs[i]) && SR.Mirror(g, es)[i] == gs[i]
      ensures ValidEdge(g, gs[i]) && End(g, gs[i]) == Start(g, es[|es| - 1 - i])
    {
      MirrorGoesAlong(g, sc, es, k, gs, i);
      SR.MirrorElements(g, es, i);
      OpposingTurnsAround(g, es[|es| - 1 - i]);
    }
    if |gs| < |es| {
      OnlyFirstSuperseded(g, sc, es, |es| - |gs|);
    } else if |es| < |gs| {
      OnlyFirstSuperseded(g, k, gs, |es|);
      assert ContractsThrough(g, gs[|es| - 1], gs[|es| - 1 + 1]);
      ContractionStepsBack(g, gs[|es| - 1], gs[|es|]);
      FollowsOn(g, gs[|es| - 1], gs[|es|]);
    }
  }

  lemma FollowsOn(g: Graph, p: GraphId, e: GraphId)
    requires WellFormed(g) && ContractsThrough(g, p, e)
    ensures ValidEdge(g, p) && ValidEdge(g, e) && End(g, p) == Start(g, e)
  {
  }

  lemma ContractedEnds(g: Graph, sc: GraphId, es: seq<GraphId>)
    requires WellFormed(g) && Contracted(g, sc, es)
    ensures |es| >= 2 && AllValid(g, es) && ValidEdge(g, sc) && End(g, sc) == End(g, es[|es| - 1])
  {
  }

  /** The lengths of a shortcut and of edges as the recovery compares them. */
  ghost predicate LengthsFit(g: Graph, sc: GraphId, es: seq<GraphId>)
    requires ValidEdge(g, sc) && AllValid(g, es)
  {
    var roundoff := (|es| + 1) / 2 + 1;
    && roundoff <= Edge(g, sc).length
    && Edge(g, sc).length - roundoff <= SR.Length(g, es) <= Edge(g, sc).length + roundoff
  }

  /** The first edge of the mirrored road is superseded by the other half of the shortcut, whose length fits. */
  ghost predicate RecoveredBack(g: Graph, sc: GraphId, es: seq<GraphId>)
    requires WellFormed(g) && ValidEdge(g, sc)
  {
    && es != [] && SR.AllOpposed(g, es) && Opposing(g, sc).Some? && ValidEdge(g, Opposing(g, sc).value)
    && (var b := Opposing(g, es[|es| - 1]).value;
        ValidEdge(g, b) && Superseded(g, b) && ShortcutOf(g, b) == Opposing(g, sc).value)
    && AllValid(g, SR.Mirror(g, es)) && LengthsFit(g, Opposing(g, sc).value, SR.Mirror(g, es))
  }

  lemma MirrorIsValid(g: Graph, es: seq<GraphId>)
    requires WellFormed(g) && SR.AllOpposed(g, es)
    ensures AllValid(g, SR.Mirror(g, es)) && SR.AllOpposed(g, SR.Mirror(g, es))
    ensures es != [] ==> SR.Mirror(g, es)[0] == Opposing(g, es[|es| - 1]).value
  {
    hide WellFormed, Opposing, SR.Mirror;
    var r := SR.Mirror(g, es);
    forall i | 0 <= i < |r|
      ensures ValidEdge(g, r[i]) && Opposing(g, r[i]).Some? && r[i] == Opposing(g, es[|es| - 1 - i]).value
    {
      SR.MirrorElements(g, es, i);
      OpposingTurnsAround(g, es[|es| - 1 - i]);
    }
  }

  lemma MirrorTwice(g: Graph, es: seq<GraphId>)
    requires WellFormed(g) && SR.AllOpposed(g, es) && SR.AllOpposed(g, SR.Mirror(g, es))
    ensures SR.Mirror(g, SR.Mirror(g, es)) == es
  {
    hide WellFormed, Opposing, SR.Mirror;
    var r := SR.Mirror(g, es);
    forall i | 0 <= i < |es|
      ensures SR.Mirror(g, r)[i] == es[i]
    {
      SR.MirrorElements(g, r, i);
      SR.MirrorElements(g, es, |es| - 1 - i);
      OpposingTurnsAround(g, es[i]);
    }
  }

  /** When a shortcut is recovered, the other half would be recovered as the mirrored edges exactly if its number and
      length say so too. */
  lemma MirrorRecoveredIff(g: Graph, sc: GraphId, k: GraphId, es: seq<GraphId>)
    requires SoundTiles(g) && ValidEdge(g, sc) && OnShortcutLevel(sc) && SR.Expansion(g, sc, es)
    requires Opposing(g, sc) == Some(k)
    ensures SR.AllOpposed(g, es) && ValidEdge(g, k) && |es| >= 2 && |SR.Mirror(g, es)| == |es|
    ensures SR.Expansion(g, k, SR.Mirror(g, es)) <==> RecoveredBack(g, sc, es)
  {
    hide WellFormed, ShortcutLevels, HalvesMirror, Built, SR.LengthsInRange, Contracted, Opposing, SR.Expansion,
      Superseded, ShortcutOf, SR.Mirror, OnShortcutLevel, SR.Length, SR.RoundoffError;
    ExpansionOfBuilt(g, sc, es);
    OppositeIsOpposed(g, sc, es);
    ContractedEnds(g, sc, es);
    OpposingTurnsAround(g, sc);
    MirrorIsValid(g, es);
    MirrorOnLevel(g, sc, es);
    var ms := SR.Mirror(g, es);
    if SR.Expansion(g, k, ms) {
      ExpansionOfBuilt(g, k, ms);
      FirstIsSuperseded(g, k, ms);
      RecoveredIff(g, k, ms);
    } else if RecoveredBack(g, sc, es) {
      var gs := ContractionOf(g, ms[0]);
      MirrorIsContraction(g, sc, es, k, gs);
      RecoveredIff(g, k, ms);
    }
  }

  lemma OpposingTile(g: Graph, e: GraphId)
    requires WellFormed(g) && ValidEdge(g, e) && Opposing(g, e).Some?
    ensures Opposing(g, e).value.tile == End(g, e).tile
  {
  }

  lemma MirrorOnLevel(g: Graph, sc: GraphId, es: seq<GraphId>)
    requires WellFormed(g) && ShortcutLevels(g) && Built(g) && Contracted(g, sc, es) && Opposing(g, sc).Some?
    requires SR.AllOpposed(g, es)
    ensures |es| >= 2 && OnShortcutLevel(Opposing(g, es[|es| - 1]).value) && OnShortcutLevel(Opposing(g, sc).value)
  {
    hide WellFormed, ShortcutLevels, Built, HalvesAgree, Contracted, Opposing;
    ContractedEnds(g, sc, es);
    assert PartOf(g, es[0], sc);
    ShortcutOfPart(g, es[0], sc);
    EndOnLevel(g, sc);
    OpposingTile(g, sc);
    OpposingTile(g, es[|es| - 1]);
  }

  lemma RecoveredAs(g: Graph, k: GraphId, v: seq<GraphId>, es: seq<GraphId>)
    requires SoundTiles(g) && ValidEdge(g, k) && SR.Recovered(g, k, v) && SR.Expansion(g, k, es)
    ensures v == es
  {
    hide WellFormed, ShortcutLevels, HalvesMirror, Built, SR.LengthsInRange, Opposing, SR.NextStep, SR.FirstStep,
      SR.NeverTooLong;
    SR.ExpansionContinues(g, k, es, v);
  }

  lemma TurnedItself(g: Graph, s: GraphId, k: GraphId)
    requires WellFormed(g) && ValidEdge(g, s) && Opposing(g, s) == Some(k)
    ensures SR.Turned(g, k, [s]) == [k]
  {
    hide WellFormed, Opposing;
    assert SR.Mirror(g, [s][1..]) == [];
  }

  /** What the other half got from the source is what recovering it would give, if both can be recovered back. */
  lemma TurnedIsRecovered(g: Graph, s: GraphId, k: GraphId, v: seq<GraphId>)
    requires SoundTiles(g) && ValidEdge(g, s) && OnShortcutLevel(s) && Opposing(g, s) == Some(k)
    requires ValidEdge(g, k) && OnShortcutLevel(k) && SR.Recovered(g, s, v)
    requires forall es | SR.Expansion(g, s, es) :: RecoveredBack(g, s, es)
    requires forall es | SR.Expansion(g, k, es) :: RecoveredBack(g, k, es)
    ensures SR.Recovered(g, k, SR.Turned(g, k, v))
  {
    hide WellFormed, ShortcutLevels, HalvesMirror, Built, SR.LengthsInRange, SR.Expansion, Opposing, RecoveredBack,
      OnShortcutLevel, SR.Mirror, SR.AllOpposed;
    OpposingTurnsAround(g, s);
    if SR.Expansion(g, s, v) {
      MirrorRecoveredIff(g, s, k, v);
    } else {
      TurnedItself(g, s, k);
      forall es
        ensures !SR.Expansion(g, k, es)
      {
        if SR.Expansion(g, k, es) {
          MirrorRecoveredIff(g, k, s, es);
        }
      }
    }
  }

  /** If what both halves have is what recovering them gives, and the one comes from the other, either can be recovered
      back. */
  lemma SourceIsRecoveredBack(g: Graph, s: GraphId, k: GraphId, v: seq<GraphId>, es: seq<GraphId>)
    requires SoundTiles(g) && ValidEdge(g, s) && OnShortcutLevel(s) && Opposing(g, s) == Some(k)
    requires ValidEdge(g, k) && OnShortcutLevel(k) && SR.Recovered(g, s, v) && SR.Recovered(g, k, SR.Turned(g, k, v))
    ensures SR.Expansion(g, s, es) ==> RecoveredBack(g, s, es)
    ensures SR.Expansion(g, k, es) ==> RecoveredBack(g, k, es)
  {
    hide WellFormed, ShortcutLevels, HalvesMirror, Built, SR.LengthsInRange, SR.Expansion, Opposing, RecoveredBack,
      OnShortcutLevel, SR.Mirror, SR.AllOpposed;
    OpposingTurnsAround(g, s);
    if SR.Expansion(g, s, v) {
      MirrorRecoveredIff(g, s, k, v);
      var w := SR.Mirror(g, v);
      assert SR.Turned(g, k, v) == w && |w| >= 2;
      MirrorIsValid(g, v);
      MirrorTwice(g, v);
      MirrorRecoveredIff(g, k, s, w);
      if SR.Expansion(g, s, es) {
        RecoveredAs(g, s, v, es);
      }
      if SR.Expansion(g, k, es) {
        RecoveredAs(g, k, w, es);
      }
    } else {
      TurnedItself(g, s, k);
      if SR.Expansion(g, k, es) {
        RecoveredAs(g, k, [k], es);
        MirrorRecoveredIff(g, k, s, es);
      }
    }
  }

  /** The cache answers for all its shortcuts what recovering them would give, if and only if every shortcut in it that
      is recovered is recovered back, too. */
  lemma CacheIsRecoveryIff(g: Graph, m: map<GraphId, seq<GraphId>>)
    requires SoundTiles(g) && SR.Filled(g, m) && forall k | k in m :: OnShortcutLevel(k)
    ensures (forall k | k in m :: ValidEdge(g, k) && SR.Recovered(g, k, m[k])) <==>
            (forall s, es | s in m && ValidEdge(g, s) && SR.Expansion(g, s, es) :: RecoveredBack(g, s, es))
  {
    hide WellFormed, ShortcutLevels, HalvesMirror, Built, SR.LengthsInRange, SR.Expansion, SR.Recovered, SR.Source,
      Opposing, RecoveredBack, OnShortcutLevel;
    if forall s, es | s in m && ValidEdge(g, s) && SR.Expansion(g, s, es) :: RecoveredBack(g, s, es) {
      forall k | k in m
        ensures ValidEdge(g, k) && SR.Recovered(g, k, m[k])
      {
        EntryIsRecovered(g, m, k);
      }
    }
    if forall k | k in m :: ValidEdge(g, k) && SR.Recovered(g, k, m[k]) {
      forall s, es | s in m && ValidEdge(g, s) && SR.Expansion(g, s, es)
        ensures RecoveredBack(g, s, es)
      {
        EntryIsRecoveredBack(g, m, s, es);
      }
    }
  }

  lemma EntryIsRecovered(g: Graph, m: map<GraphId, seq<GraphId>>, k: GraphId)
    requires SoundTiles(g) && SR.Filled(g, m) && k in m && forall k | k in m :: OnShortcutLevel(k)
    requires forall s, es | s in m && ValidEdge(g, s) && SR.Expansion(g, s, es) :: RecoveredBack(g, s, es)
    ensures ValidEdge(g, k) && SR.Recovered(g, k, m[k])
  {
    hide WellFormed, ShortcutLevels, HalvesMirror, Built, SR.LengthsInRange, SR.Expansion, SR.Recovered, SR.Turned,
      Opposing, RecoveredBack, OnShortcutLevel;
    if !SR.Source(g, m, k) {
      var s := Opposing(g, k).value;
      OpposingTurnsAround(g, k);
      TurnedIsRecovered(g, s, k, m[s]);
    }
  }

  lemma EntryIsRecoveredBack(g: Graph, m: map<GraphId, seq<GraphId>>, s: GraphId, es: seq<GraphId>)
    requires SoundTiles(g) && SR.Filled(g, m) && s in m && forall k | k in m :: OnShortcutLevel(k)
    requires forall k | k in m :: ValidEdge(g, k) && SR.Recovered(g, k, m[k])
    requires SR.Expansion(g, s, es)
    ensures RecoveredBack(g, s, es)
  {
    hide WellFormed, ShortcutLevels, HalvesMirror, Built, SR.LengthsInRange, SR.Expansion, SR.Recovered, SR.Turned,
      Opposing, RecoveredBack, OnShortcutLevel;
    ExpansionIsOpposed(g, s, es);
    var k := Opposing(g, s).value;
    OpposingTurnsAround(g, s);
    if SR.Source(g, m, s) {
      SourceIsRecoveredBack(g, s, k, m[s], es);
    } else {
      SourceIsRecoveredBack(g, k, s, m[k], es);
    }
  }

  lemma ExpansionIsOpposed(g: Graph, s: GraphId, es: seq<GraphId>)
    requires WellFormed(g) && ValidEdge(g, s) && SR.Expansion(g, s, es)
    ensures Opposing(g, s).Some?
  {
  }

  // ---------------------------------------------------------------------------------------------
  // No shortcut hides a restricted road

  lemma ContractedUntagged(g: Graph, sc: GraphId, es: seq<GraphId>, e: GraphId)
    requires WellFormed(g) && Contracted(g, sc, es) && e in es
    ensures ValidEdge(g, e) && Edge(g, e).nhvrTag == None
  {
    hide WellFormed, Opposing, Start, EdgesMatch, ShortcutAt, Superseded;
    var i :| 0 <= i < |es| && es[i] == e;
    if i > 0 {
      assert ContractsThrough(g, es[i - 1], es[i - 1 + 1]);
    }
  }

  /** The edges that a shortcut is recovered as have no networks, and so the truck costing's test refuses none of them,
      whatever networks are asked for. */
  method RecoveredPasses(g: Graph, sc: GraphId, fs: seq<GraphId>, e: GraphId, requested: set<string>)
    returns (entries: Result<seq<NN.Entry>, NN.ParseError>, refused: bool)
    requires SoundTiles(g) && ValidEdge(g, sc) && OnShortcutLevel(sc) && SR.Expansion(g, sc, fs) && e in fs
    ensures ValidEdge(g, e) && Edge(g, e).nhvrTag == None && entries == NN.Networks(Edge(g, e).nhvrTag) == Ok([])
    ensures !refused
  {
    hide WellFormed, ShortcutLevels, HalvesMirror, Built, SR.LengthsInRange, Contracted, SR.Walk, Opposing;
    ExpansionOfBuilt(g, sc, fs);
    ContractedUntagged(g, sc, fs, e);
    entries := NN.Networks(Edge(g, e).nhvrTag);
    refused := NN.IsProhibited(entries.value, requested);
  }

  /** Looking up an edge with any networks, and so one that is closed to some truck, never finds a shortcut. */
  lemma ClosedHasNoShortcut(g: Graph, id: GraphId, r: Lookup, bs: seq<GraphId>, last: GraphId)
    requires WellFormed(g) && ShortcutLevels(g) && Built(g) && ValidEdge(g, id) && !Edge(g, id).isShortcut
    requires LookedUp(g, id, r, bs, last) && Edge(g, id).nhvrTag.Some?
    ensures !r.Shortcut?
  {
    hide WellFormed, ShortcutLevels, Built, Contracted, LookedUp;
    if r.Shortcut? {
      AnswerIsMembership(g, id, r, bs, last, r.id);
      var es :| Contracted(g, r.id, es) && id in es;
      ContractedUntagged(g, r.id, es, id);
    }
  }
}
