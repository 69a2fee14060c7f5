/** shortcut_recovery_t: walk the edges a shortcut replaced, within a length tolerance that grows with
    every edge, and the cache that is filled with both directions of every shortcut. */
module ShortcutRecovery {
  import opened TileHierarchy
  import opened Wrappers
  import opened RoadGraph

  const UINT32: int := 0x1_0000_0000

  /** Subtraction of unsigned 32 bit numbers. */
  function Minus32(a: nat, b: nat): nat
    requires a < UINT32 && b < UINT32
  {
    if b <= a then a - b else a - b + UINT32
  }

  /** std::round(edge_count * 0.5) + 1; the initial value before any edge was added is 1. */
  function RoundoffError(edgeCount: nat): nat {
    if edgeCount <= 1 then 1 else (edgeCount + 1) / 2 + 1
  }

  /** Edges have a length, which is stored in 24 bits. */
  ghost predicate LengthsInRange(g: Graph) {
    forall e | ValidEdge(g, e) :: 1 <= Edge(g, e).length < 0x100_0000
  }

  function Length(g: Graph, es: seq<GraphId>): nat
    requires forall e | e in es :: ValidEdge(g, e)
  {
    if es == [] then 0 else Length(g, es[..|es| - 1]) + Edge(g, es[|es| - 1]).length
  }

  /** The comparison of every attribute but speed that decides whether the edge is part of it. */
  predicate SameEnough(edge: DirectedEdge, shortcut: DirectedEdge) {
    !edge.isShortcut && edge.traits == shortcut.traits && edge.use == shortcut.use && edge.use != Construction
  }

  predicate CommonBit(a: bv7, b: bv7) {
    a & b != 0
  }

  function FirstSuperseded(g: Graph, es: seq<GraphId>, mask: bv7): (r: Option<GraphId>)
    requires forall e | e in es :: ValidEdge(g, e)
    ensures r.Some? ==> r.value in es && CommonBit(mask, Edge(g, r.value).superseded)
  {
    if es == [] then None
    else if CommonBit(mask, Edge(g, es[0]).superseded) then Some(es[0])
    else FirstSuperseded(g, es[1..], mask)
  }

  function FirstFitting(g: Graph, es: seq<GraphId>, shortcut: DirectedEdge, from: GraphId): (r: Option<GraphId>)
    requires forall e | e in es :: ValidEdge(g, e)
    ensures r.Some? ==> r.value in es && End(g, r.value) != from && SameEnough(Edge(g, r.value), shortcut)
  {
    if es == [] then None
    else if from != End(g, es[0]) && SameEnough(Edge(g, es[0]), shortcut) then Some(es[0])
    else FirstFitting(g, es[1..], shortcut, from)
  }

  /** The edge the walk starts with: the first at the shortcut's begin node that it supersedes. */
  ghost function FirstStep(g: Graph, sc: GraphId): Option<GraphId>
    requires WellFormed(g) && ValidEdge(g, sc)
  {
    OutEdgesValid(g, Start(g, sc));
    FirstSuperseded(g, OutEdges(g, Start(g, sc)), Edge(g, sc).shortcutMask)
  }

  /** The edge the walk takes after `e`: the first at its end that is the same enough and does not lead
      straight back. */
  ghost function NextStep(g: Graph, sc: GraphId, e: GraphId): Option<GraphId>
    requires WellFormed(g) && ValidEdge(g, sc) && ValidEdge(g, e)
  {
    if End(g, e).tile !in g then None
    else
      assert EdgeOk(g, e);
      OutEdgesValid(g, End(g, e));
      FirstFitting(g, OutEdges(g, End(g, e)), Edge(g, sc), Start(g, e))
  }

  /** A walk that has not failed: it starts right, takes the right steps, has not passed the shortcut's
      end, and from the second edge on was never too long. */
  ghost predicate Walk(g: Graph, sc: GraphId, es: seq<GraphId>)
    requires WellFormed(g) && ValidEdge(g, sc)
  {
    && es != [] && AllValid(g, es) && FirstStep(g, sc) == Some(es[0])
    && (forall i | 0 <= i < |es| - 1 :: End(g, es[i]) != End(g, sc) && NextStep(g, sc, es[i]) == Some(es[i + 1]))
    && NeverTooLong(g, sc, es)
  }

  ghost predicate NeverTooLong(g: Graph, sc: GraphId, es: seq<GraphId>)
    requires AllValid(g, es) && ValidEdge(g, sc)
  {
    forall k | 1 < k <= |es| :: NotTooLongAt(g, sc, es, k)
  }

  ghost predicate NotTooLongAt(g: Graph, sc: GraphId, es: seq<GraphId>, k: nat)
    requires AllValid(g, es) && ValidEdge(g, sc) && k <= |es|
  {
    Length(g, es[..k]) <= Edge(g, sc).length + RoundoffError(k)
  }

  /** A walk that found the shortcut's end and is long enough. The error may not exceed the length, as
      the difference is formed in unsigned arithmetic. */
  ghost predicate Expansion(g: Graph, sc: GraphId, es: seq<GraphId>)
    requires WellFormed(g) && ValidEdge(g, sc)
  {
    && Edge(g, sc).isShortcut && Opposing(g, sc).Some?
    && Walk(g, sc, es) && End(g, es[|es| - 1]) == End(g, sc)
    && RoundoffError(|es|) <= Edge(g, sc).length <= Length(g, es) + RoundoffError(|es|)
  }

  lemma {:induction false} LengthAtLeastCount(g: Graph, es: seq<GraphId>)
    requires AllValid(g, es) && LengthsInRange(g)
    ensures |es| <= Length(g, es)
  {
    if es != [] {
      LengthAtLeastCount(g, es[..|es| - 1]);
    }
  }

  /** The tolerance grows by one every two edges, the length by at least one every edge. */
  lemma WalkIsBounded(g: Graph, sc: GraphId, es: seq<GraphId>)
    requires WellFormed(g) && ValidEdge(g, sc) && LengthsInRange(g) && Walk(g, sc, es)
    ensures |es| <= 2 * Edge(g, sc).length + 3
    ensures |es| > 1 ==> Length(g, es) <= Edge(g, sc).length + RoundoffError(|es|)
  {
    LengthAtLeastCount(g, es);
    assert es[..|es|] == es;
    assert |es| > 1 ==> NotTooLongAt(g, sc, es, |es|);
  }

  /** The walk has no choice: of two walks one is the beginning of the other. */
  lemma {:induction false} WalksAgree(g: Graph, sc: GraphId, es: seq<GraphId>, fs: seq<GraphId>, i: nat)
    requires WellFormed(g) && ValidEdge(g, sc) && Walk(g, sc, es) && Walk(g, sc, fs)
    requires i < |es| && i < |fs|
    ensures es[..i + 1] == fs[..i + 1]
  {
    hide WellFormed, NextStep, FirstStep, CommonBit, Length;
    if i > 0 {
      WalksAgree(g, sc, es, fs, i - 1);
      assert es[i - 1] == es[..i][i - 1] == fs[..i][i - 1] == fs[i - 1];
      assert es[..i + 1] == es[..i] + [es[i]] && fs[..i + 1] == fs[..i] + [fs[i]];
    }
  }

  /** A walk that stands short of the end is the beginning of any expansion there is. */
  lemma ExpansionContinues(g: Graph, sc: GraphId, es: seq<GraphId>, fs: seq<GraphId>)
    requires WellFormed(g) && ValidEdge(g, sc) && Walk(g, sc, es) && Expansion(g, sc, fs)
    ensures End(g, es[|es| - 1]) != End(g, sc) ==> |es| < |fs| && es == fs[..|es|]
    ensures End(g, es[|es| - 1]) == End(g, sc) ==> es == fs
  {
    var m := if |es| <= |fs| then |es| else |fs|;
    WalksAgree(g, sc, es, fs, m - 1);
    assert es[m - 1] == es[..m][m - 1] == fs[..m][m - 1] == fs[m - 1];
    assert es[..|es|] == es && fs[..|fs|] == fs;
  }

  lemma {:induction false} HeadToTail(g: Graph, es: seq<GraphId>)
    requires WellFormed(g) && es != [] && AllValid(g, es)
    requires forall i | 0 <= i < |es| - 1 :: End(g, es[i]) == Start(g, es[i + 1])
    ensures Connects(g, Start(g, es[0]), es, End(g, es[|es| - 1]))
  {
    hide WellFormed, Start;
    if |es| > 1 {
      var rest := es[1..];
      forall i | 0 <= i < |rest| - 1
        ensures End(g, rest[i]) == Start(g, rest[i + 1])
      {
        assert rest[i] == es[i + 1] && rest[i + 1] == es[i + 2];
      }
      HeadToTail(g, rest);
    } else {
      assert Connects(g, End(g, es[0]), es[1..], End(g, es[0]));
    }
  }

  /** Edge `f` follows `e`, does not turn straight back, and is the same enough as the shortcut. */
  ghost predicate StepOk(g: Graph, sc: GraphId, e: GraphId, f: GraphId)
    requires WellFormed(g) && ValidEdge(g, sc)
  {
    && ValidEdge(g, e) && ValidEdge(g, f)
    && Start(g, f) == End(g, e) && End(g, f) != Start(g, e) && SameEnough(Edge(g, f), Edge(g, sc))
  }

  lemma StepsFit(g: Graph, sc: GraphId, e: GraphId)
    requires WellFormed(g) && ValidEdge(g, sc) && ValidEdge(g, e) && NextStep(g, sc, e).Some?
    ensures var f := NextStep(g, sc, e).value;
            && ValidEdge(g, f) && Start(g, f) == End(g, e) && End(g, f) != Start(g, e)
            && SameEnough(Edge(g, f), Edge(g, sc))
  {
    assert EdgeOk(g, e);
    OutEdgesValid(g, End(g, e));
  }

  lemma FirstStepFits(g: Graph, sc: GraphId)
    requires WellFormed(g) && ValidEdge(g, sc) && FirstStep(g, sc).Some?
    ensures ValidEdge(g, FirstStep(g, sc).value) && Start(g, FirstStep(g, sc).value) == Start(g, sc)
    ensures CommonBit(Edge(g, sc).shortcutMask, Edge(g, FirstStep(g, sc).value).superseded)
  {
    OutEdgesValid(g, Start(g, sc));
  }

  /** The edge is no shortcut, not under construction, and has the shortcut's use and attributes. */
  predicate Resembles(edge: DirectedEdge, shortcut: DirectedEdge) {
    !edge.isShortcut && edge.use != Construction && edge.use == shortcut.use && edge.traits == shortcut.traits
  }

  /** Edge `f` leaves node `n`, does not lead to `from`, and resembles the shortcut. */
  ghost predicate GoesOn(g: Graph, sc: GraphId, n: GraphId, from: GraphId, f: GraphId)
    requires ValidNode(g, n) && ValidEdge(g, sc)
  {
    Leaves(g, f, n) && ValidEdge(g, f) && End(g, f) != from && Resembles(Edge(g, f), Edge(g, sc))
  }

  /** Edge `f` leaves node `n` and is superseded by the shortcut. */
  ghost predicate IsReplaced(g: Graph, sc: GraphId, n: GraphId, f: GraphId)
    requires ValidNode(g, n) && ValidEdge(g, sc)
  {
    Leaves(g, f, n) && ValidEdge(g, f) && CommonBit(Edge(g, sc).shortcutMask, Edge(g, f).superseded)
  }

  lemma {:induction false} FirstFittingAt(g: Graph, es: seq<GraphId>, shortcut: DirectedEdge, from: GraphId)
    returns (i: nat)
    requires AllValid(g, es)
    ensures i <= |es| && forall k | 0 <= k < i :: End(g, es[k]) == from || !Resembles(Edge(g, es[k]), shortcut)
    ensures i < |es| ==> End(g, es[i]) != from && Resembles(Edge(g, es[i]), shortcut)
    ensures FirstFitting(g, es, shortcut, from) == if i < |es| then Some(es[i]) else None
  {
    if es == [] || (End(g, es[0]) != from && Resembles(Edge(g, es[0]), shortcut)) {
      i := 0;
    } else {
      var j := FirstFittingAt(g, es[1..], shortcut, from);
      i := j + 1;
    }
  }

  lemma {:induction false} FirstSupersededAt(g: Graph, es: seq<GraphId>, mask: bv7) returns (i: nat)
    requires AllValid(g, es)
    ensures i <= |es| && forall k | 0 <= k < i :: !CommonBit(mask, Edge(g, es[k]).superseded)
    ensures i < |es| ==> CommonBit(mask, Edge(g, es[i]).superseded)
    ensures FirstSuperseded(g, es, mask) == if i < |es| then Some(es[i]) else None
  {
    hide CommonBit;
    if es == [] || CommonBit(mask, Edge(g, es[0]).superseded) {
      i := 0;
    } else {
      var j := FirstSupersededAt(g, es[1..], mask);
      i := j + 1;
    }
  }

  lemma OutEdgesInOrder(g: Graph, n: GraphId)
    requires WellFormed(g) && ValidNode(g, n)
    ensures AllValid(g, OutEdges(g, n))
    ensures forall k | 0 <= k < |OutEdges(g, n)| :: OutEdges(g, n)[k].id == Node(g, n).edgeIndex + k
    ensures forall e | Leaves(g, e, n) :: Node(g, n).edgeIndex <= e.id < Node(g, n).edgeIndex + |OutEdges(g, n)|
                                       && OutEdges(g, n)[e.id - Node(g, n).edgeIndex] == e
  {
    OutEdgesValid(g, n);
  }

  /** The recovery goes on to the edge with the lowest number that goes on from there, if any edge does. */
  lemma NextStepIff(g: Graph, sc: GraphId, e: GraphId, f: GraphId)
    requires WellFormed(g) && ValidEdge(g, sc) && ValidEdge(g, e) && End(g, e).tile in g
    ensures ValidNode(g, End(g, e))
    ensures NextStep(g, sc, e) == Some(f) <==>
            && GoesOn(g, sc, End(g, e), Start(g, e), f)
            && forall d | GoesOn(g, sc, End(g, e), Start(g, e), d) :: f.id <= d.id
    ensures NextStep(g, sc, e) == None <==> forall d :: !GoesOn(g, sc, End(g, e), Start(g, e), d)
  {
    EndIsNode(g, e);
    var n := End(g, e);
    OutEdgesInOrder(g, n);
    var out := OutEdges(g, n);
    var i := FirstFittingAt(g, out, Edge(g, sc), Start(g, e));
    assert NextStep(g, sc, e) == FirstFitting(g, out, Edge(g, sc), Start(g, e));
    hide WellFormed, Start, NextStep, FirstFitting, OutEdges, Resembles;
    if i < |out| {
      assert GoesOn(g, sc, n, Start(g, e), out[i]);
    }
  }

  /** It begins with the edge with the lowest number that the shortcut supersedes where it begins, if there is any. */
  lemma FirstStepIff(g: Graph, sc: GraphId, f: GraphId)
    requires WellFormed(g) && ValidEdge(g, sc)
    ensures FirstStep(g, sc) == Some(f) <==>
            IsReplaced(g, sc, Start(g, sc), f) && forall d | IsReplaced(g, sc, Start(g, sc), d) :: f.id <= d.id
    ensures FirstStep(g, sc) == None <==> forall d :: !IsReplaced(g, sc, Start(g, sc), d)
  {
    hide CommonBit;
    var n := Start(g, sc);
    OutEdgesInOrder(g, n);
    var out := OutEdges(g, n);
    var i := FirstSupersededAt(g, out, Edge(g, sc).shortcutMask);
    assert FirstStep(g, sc) == FirstSuperseded(g, out, Edge(g, sc).shortcutMask);
    hide WellFormed, Start, FirstStep, FirstSuperseded, OutEdges;
    if i < |out| {
      assert IsReplaced(g, sc, n, out[i]);
    }
  }

  /** An expansion is a path from the shortcut's begin node to its end node. It begins with an edge the
      shortcut supersedes, its other edges are the same enough, and it never turns back where it came
      from. */
  lemma ExpansionIsPath(g: Graph, sc: GraphId, es: seq<GraphId>)
    requires WellFormed(g) && ValidEdge(g, sc) && Expansion(g, sc, es)
    ensures AllValid(g, es) && Connects(g, Start(g, sc), es, End(g, sc))
    ensures CommonBit(Edge(g, sc).shortcutMask, Edge(g, es[0]).superseded)
    ensures forall i | 0 <= i < |es| - 1 :: StepOk(g, sc, es[i], es[i + 1])
    ensures forall i | 1 <= i < |es| :: Resembles(Edge(g, es[i]), Edge(g, sc))
  {
    hide WellFormed, NextStep, FirstStep, CommonBit, Length, Start, RoundoffError;
    FirstStepFits(g, sc);
    forall i | 0 <= i < |es| - 1
      ensures StepOk(g, sc, es[i], es[i + 1])
    {
      assert NextStep(g, sc, es[i]) == Some(es[i + 1]);
      StepsFit(g, sc, es[i]);
    }
    forall i | 1 <= i < |es|
      ensures Resembles(Edge(g, es[i]), Edge(g, sc))
    {
      assert StepOk(g, sc, es[i - 1], es[i - 1 + 1]);
    }
    HeadToTail(g, es);
  }

  /** An expansion's length is right up to the roundoff error (for a single edge only from below), which
      bounds the number of its edges. */
  lemma ExpansionLength(g: Graph, sc: GraphId, es: seq<GraphId>)
    requires WellFormed(g) && ValidEdge(g, sc) && Expansion(g, sc, es) && LengthsInRange(g)
    ensures AllValid(g, es)
    ensures var roundoff := if |es| == 1 then 1 else (|es| + 1) / 2 + 1;
            && roundoff <= Edge(g, sc).length && Edge(g, sc).length - roundoff <= Length(g, es)
            && (|es| > 1 ==> Length(g, es) <= Edge(g, sc).length + roundoff)
    ensures |es| <= 2 * Edge(g, sc).length + 3
  {
    WalkIsBounded(g, sc, es);
  }

  lemma WalkGoesOn(g: Graph, sc: GraphId, es: seq<GraphId>, e: GraphId)
    requires WellFormed(g) && ValidEdge(g, sc) && Walk(g, sc, es) && End(g, es[|es| - 1]) != End(g, sc)
    requires NextStep(g, sc, es[|es| - 1]) == Some(e)
    ensures ValidEdge(g, e) && AllValid(g, es + [e]) && Length(g, es + [e]) == Length(g, es) + Edge(g, e).length
    ensures Length(g, es + [e]) <= Edge(g, sc).length + RoundoffError(|es| + 1) <==> Walk(g, sc, es + [e])
  {
    hide WellFormed, NextStep, FirstStep, Length, NeverTooLong, SameEnough, RoundoffError, ValidEdge;
    StepsFit(g, sc, es[|es| - 1]);
    LengthGrows(g, sc, es, e);
  }

  lemma LengthWith(g: Graph, es: seq<GraphId>, e: GraphId)
    requires AllValid(g, es) && ValidEdge(g, e)
    ensures AllValid(g, es + [e]) && Length(g, es + [e]) == Length(g, es) + Edge(g, e).length
  {
    var fs := es + [e];
    assert AllValid(g, fs);
    assert fs[..|fs| - 1] == es;
  }

  lemma SamePrefix(g: Graph, sc: GraphId, es: seq<GraphId>, e: GraphId, k: nat)
    requires ValidEdge(g, sc) && AllValid(g, es) && AllValid(g, es + [e]) && k <= |es|
    ensures NotTooLongAt(g, sc, es + [e], k) <==> NotTooLongAt(g, sc, es, k)
  {
    hide Length;
    assert (es + [e])[..k] == es[..k];
  }

  lemma WholePrefix(g: Graph, sc: GraphId, es: seq<GraphId>)
    requires ValidEdge(g, sc) && AllValid(g, es)
    ensures NotTooLongAt(g, sc, es, |es|) <==> Length(g, es) <= Edge(g, sc).length + RoundoffError(|es|)
  {
    hide Length;
    assert es[..|es|] == es;
  }

  lemma LengthGrows(g: Graph, sc: GraphId, es: seq<GraphId>, e: GraphId)
    requires ValidEdge(g, sc) && es != [] && AllValid(g, es) && ValidEdge(g, e) && NeverTooLong(g, sc, es)
    ensures AllValid(g, es + [e]) && Length(g, es + [e]) == Length(g, es) + Edge(g, e).length
    ensures Length(g, es + [e]) <= Edge(g, sc).length + RoundoffError(|es| + 1) <==> NeverTooLong(g, sc, es + [e])
  {
    hide Length, NotTooLongAt, ValidEdge, RoundoffError, AllValid;
    LengthWith(g, es, e);
    forall k | 1 < k <= |es|
      ensures NotTooLongAt(g, sc, es + [e], k) <==> NotTooLongAt(g, sc, es, k)
    {
      SamePrefix(g, sc, es, e, k);
    }
    WholePrefix(g, sc, es + [e]);
  }

  lemma ExpansionFits(g: Graph, sc: GraphId, fs: seq<GraphId>, k: nat)
    requires WellFormed(g) && ValidEdge(g, sc) && Expansion(g, sc, fs) && 1 < k <= |fs|
    ensures Length(g, fs[..k]) <= Edge(g, sc).length + RoundoffError(k)
  {
    hide WellFormed, NextStep, FirstStep;
    assert NotTooLongAt(g, sc, fs, k);
  }

  /** No expansion when the walk cannot take the next step, or has become too long. */
  lemma WalkFails(g: Graph, sc: GraphId, es: seq<GraphId>, fs: seq<GraphId>)
    requires WellFormed(g) && ValidEdge(g, sc) && Walk(g, sc, es) && End(g, es[|es| - 1]) != End(g, sc)
    requires NextStep(g, sc, es[|es| - 1]).None?
          || (AllValid(g, es + [NextStep(g, sc, es[|es| - 1]).value])
              && Length(g, es + [NextStep(g, sc, es[|es| - 1]).value]) > Edge(g, sc).length + RoundoffError(|es| + 1))
    ensures !Expansion(g, sc, fs)
  {
    hide WellFormed, NextStep, FirstStep, CommonBit, Length;
    if |es| < |fs| && es == fs[..|es|] {
      assert fs[|es| - 1] == es[|es| - 1];
      assert fs[..|es| + 1] == es + [fs[|es|]];
    }
    if Expansion(g, sc, fs) {
      ExpansionContinues(g, sc, es, fs);
      ExpansionFits(g, sc, fs, |es| + 1);
    }
  }

  lemma WalkBegins(g: Graph, sc: GraphId)
    requires WellFormed(g) && ValidEdge(g, sc) && FirstStep(g, sc).Some?
    ensures var e := FirstStep(g, sc).value;
            ValidEdge(g, e) && Walk(g, sc, [e]) && Length(g, [e]) == Edge(g, e).length && Start(g, e) == Start(g, sc)
  {
    FirstStepFits(g, sc);
    assert [FirstStep(g, sc).value][..0] == [];
  }

  lemma NoExpansion(g: Graph, sc: GraphId, es: seq<GraphId>)
    requires WellFormed(g) && ValidEdge(g, sc) && Walk(g, sc, es) && End(g, es[|es| - 1]) != End(g, sc)
    requires NextStep(g, sc, es[|es| - 1]).None?
          || (AllValid(g, es + [NextStep(g, sc, es[|es| - 1]).value])
              && Length(g, es + [NextStep(g, sc, es[|es| - 1]).value]) > Edge(g, sc).length + RoundoffError(|es| + 1))
    ensures forall fs :: !Expansion(g, sc, fs)
  {
    hide *;
    forall fs
      ensures !Expansion(g, sc, fs)
    {
      WalkFails(g, sc, es, fs);
    }
  }

  lemma ArrivedWalk(g: Graph, sc: GraphId, es: seq<GraphId>)
    requires WellFormed(g) && ValidEdge(g, sc) && Walk(g, sc, es) && End(g, es[|es| - 1]) == End(g, sc)
    ensures forall fs | Expansion(g, sc, fs) :: fs == es
  {
    hide *;
    forall fs | Expansion(g, sc, fs)
      ensures fs == es
    {
      ExpansionContinues(g, sc, es, fs);
    }
  }

  /** The loop over the edges of the begin node. */
  method SupersededAt(g: Graph, sc: GraphId, beginNode: GraphId) returns (first: Option<GraphId>)
    requires WellFormed(g) && ValidEdge(g, sc) && beginNode == Start(g, sc)
    ensures first == FirstStep(g, sc)
  {
    OutEdgesValid(g, beginNode);
    var out := OutEdges(g, beginNode);
    hide WellFormed, Start, CommonBit;
    for i := 0 to |out|
      invariant FirstSuperseded(g, out, Edge(g, sc).shortcutMask) ==
                FirstSuperseded(g, out[i..], Edge(g, sc).shortcutMask)
    {
      if CommonBit(Edge(g, sc).shortcutMask, Edge(g, out[i]).superseded) {
        return Some(out[i]);
      }
      assert out[i..][1..] == out[i + 1..];
    }
    return None;
  }

  /** The loop over the edges at the end of the last edge. */
  method FittingAfter(g: Graph, sc: GraphId, current: GraphId, beginNode: GraphId) returns (next: Option<GraphId>)
    requires WellFormed(g) && ValidEdge(g, sc) && ValidEdge(g, current) && beginNode == Start(g, current)
    ensures next == NextStep(g, sc, current)
  {
    if End(g, current).tile !in g {
      return None;
    }
    assert EdgeOk(g, current);
    OutEdgesValid(g, End(g, current));
    var out := OutEdges(g, End(g, current));
    hide WellFormed, Start, CommonBit, SameEnough;
    for i := 0 to |out|
      invariant FirstFitting(g, out, Edge(g, sc), beginNode) == FirstFitting(g, out[i..], Edge(g, sc), beginNode)
    {
      if beginNode != End(g, out[i]) && SameEnough(Edge(g, out[i]), Edge(g, sc)) {
        return Some(out[i]);
      }
      assert out[i..][1..] == out[i + 1..];
    }
    return None;
  }

  /** The expansion of a shortcut if there is one, otherwise the shortcut itself. The loop ends although
      its bound moves: the length grows faster than the tolerance. */
  method RecoverShortcut(g: Graph, sc: GraphId) returns (edges: seq<GraphId>)
    requires WellFormed(g) && ValidEdge(g, sc) && LengthsInRange(g)
    ensures Expansion(g, sc, edges) || edges == [sc]
    ensures (exists es :: Expansion(g, sc, es)) ==> Expansion(g, sc, edges)
  {
    hide WellFormed, NextStep, FirstStep, CommonBit, Length, Start, Opposing;
    var shortcut := Edge(g, sc);
    if !shortcut.isShortcut {
      return [sc];
    }
    var opp := Opposing(g, sc);
    if opp.None? {
      return [sc];
    }
    OpposingTurnsAround(g, sc);
    var beginNode := End(g, opp.value);
    var first := SupersededAt(g, sc, beginNode);
    if first.None? {
      return [sc];
    }
    WalkBegins(g, sc);
    edges := [first.value];
    var current := first.value;
    var accumulated := Edge(g, current).length;
    var edgeCount, roundoff := 1, 1;
    while End(g, current) != shortcut.endnode
      invariant Walk(g, sc, edges) && current == edges[|edges| - 1] && beginNode == Start(g, current)
      invariant accumulated == Length(g, edges) && edgeCount == |edges| && roundoff == RoundoffError(edgeCount)
      decreases 2 * shortcut.length + 3 - |edges|
    {
      var next := FittingAfter(g, sc, current, beginNode);
      if next.Some? {
        WalkGoesOn(g, sc, edges, next.value);
        accumulated := accumulated + Edge(g, next.value).length;
      }
      edgeCount := edgeCount + 1;
      roundoff := (edgeCount + 1) / 2 + 1;
      if next.None? || accumulated > shortcut.length + roundoff {
        NoExpansion(g, sc, edges);
        return [sc];
      }
      StepsFit(g, sc, current);
      beginNode := End(g, current);
      edges := edges + [next.value];
      current := next.value;
      WalkIsBounded(g, sc, edges);
    }
    ArrivedWalk(g, sc, edges);
    WalkIsBounded(g, sc, edges);
    if accumulated < Minus32(shortcut.length, roundoff) {
      return [sc];
    }
  }

  // ---------------------------------------------------------------------------------------------
  // The cache

  ghost predicate AllOpposed(g: Graph, es: seq<GraphId>)
    requires WellFormed(g)
  {
    forall e | e in es :: ValidEdge(g, e) && Opposing(g, e).Some?
  }

  /** The opposing edges in reverse order. */
  function Mirror(g: Graph, es: seq<GraphId>): (r: seq<GraphId>)
    requires WellFormed(g) && AllOpposed(g, es)
    ensures |r| == |es|
  {
    if es == [] then [] else Mirror(g, es[1..]) + [Opposing(g, es[0]).value]
  }

  /** A mirrored path leads back. */
  lemma {:induction false} MirrorConnects(g: Graph, a: GraphId, es: seq<GraphId>, b: GraphId)
    requires WellFormed(g) && AllOpposed(g, es) && Connects(g, a, es, b)
    ensures Connects(g, b, Mirror(g, es), a)
    decreases es
  {
    hide WellFormed, Start, Opposing;
    if es != [] {
      var o := Opposing(g, es[0]).value;
      OpposingTurnsAround(g, es[0]);
      MirrorConnects(g, End(g, es[0]), es[1..], b);
      assert Connects(g, a, [o][1..], a);
      ConnectsAppend(g, b, Mirror(g, es[1..]), End(g, es[0]), [o], a);
    }
  }

  lemma {:induction false} MirrorElements(g: Graph, es: seq<GraphId>, i: nat)
    requires WellFormed(g) && AllOpposed(g, es) && i < |es|
    ensures Mirror(g, es)[i] == Opposing(g, es[|es| - 1 - i]).value
  {
    hide WellFormed, Start, Opposing;
    if i < |es| - 1 {
      MirrorElements(g, es[1..], i);
    }
  }

  /** What recovering an edge gives: its one expansion, or itself where there is none. */
  ghost predicate Recovered(g: Graph, k: GraphId, v: seq<GraphId>)
    requires WellFormed(g) && ValidEdge(g, k)
  {
    Expansion(g, k, v) || (v == [k] && forall es :: !Expansion(g, k, es))
  }

  lemma RecoveredIsValid(g: Graph, k: GraphId, v: seq<GraphId>)
    requires WellFormed(g) && ValidEdge(g, k) && Recovered(g, k, v)
    ensures AllValid(g, v)
  {
  }

  /** What the other half `o` gets from these edges: their mirror, or itself when one of them has no opposing edge. */
  ghost function Turned(g: Graph, o: GraphId, v: seq<GraphId>): seq<GraphId>
    requires WellFormed(g)
  {
    if AllOpposed(g, v) then Mirror(g, v) else [o]
  }

  /** The edge was recovered, and its opposing edge got the mirrored answer. */
  ghost predicate Source(g: Graph, m: map<GraphId, seq<GraphId>>, s: GraphId)
    requires WellFormed(g)
  {
    && s in m && ValidEdge(g, s) && Edge(g, s).shortcutMask != 0 && Recovered(g, s, m[s])
    && forall o | Opposing(g, s) == Some(o) :: o in m && m[o] == Turned(g, o, m[s])
  }

  /** What a filled cache holds: of every shortcut or its opposing edge, one is the source of both. */
  ghost predicate Filled(g: Graph, m: map<GraphId, seq<GraphId>>)
    requires WellFormed(g)
  {
    forall k | k in m ::
      ValidEdge(g, k) && (Source(g, m, k) || (Opposing(g, k).Some? && Source(g, m, Opposing(g, k).value)))
  }

  lemma HoldsBoth(g: Graph, m: map<GraphId, seq<GraphId>>, k: GraphId)
    requires WellFormed(g) && Filled(g, m) && k in m
    ensures ValidEdge(g, k) && forall o | Opposing(g, k) == Some(o) :: o in m
  {
  }

  /** One more shortcut with its opposing edge. */
  lemma FillBoth(g: Graph, m: map<GraphId, seq<GraphId>>, more: map<GraphId, seq<GraphId>>, sc: GraphId)
    requires WellFormed(g) && Filled(g, m) && ValidEdge(g, sc) && sc !in m && Source(g, more, sc)
    requires forall k | k in m :: k in more && more[k] == m[k]
    requires forall k | k in more :: k in m || k == sc || Opposing(g, sc) == Some(k)
    ensures Filled(g, more)
  {
    hide WellFormed, Recovered, Turned, Opposing;
    if Opposing(g, sc).Some? {
      OpposingTurnsAround(g, sc);
    }
    forall s | Source(g, m, s)
      ensures Source(g, more, s)
    {
    }
  }

  /** Cached or not, the answer is the edge itself or a path from its begin node to its end node. */
  lemma RecoveredIsPath(g: Graph, k: GraphId, v: seq<GraphId>)
    requires WellFormed(g) && ValidEdge(g, k) && Recovered(g, k, v)
    ensures v == [k] || Connects(g, Start(g, k), v, End(g, k))
  {
    hide WellFormed, Start, Opposing, Expansion;
    if Expansion(g, k, v) {
      ExpansionIsPath(g, k, v);
    }
  }

  lemma EntryIsPath(g: Graph, m: map<GraphId, seq<GraphId>>, k: GraphId)
    requires WellFormed(g) && Filled(g, m) && k in m
    ensures ValidEdge(g, k) && (m[k] == [k] || Connects(g, Start(g, k), m[k], End(g, k)))
  {
    hide WellFormed, Start, Opposing, Recovered;
    if Source(g, m, k) {
      RecoveredIsPath(g, k, m[k]);
    } else {
      var s := Opposing(g, k).value;
      OpposingTurnsAround(g, k);
      RecoveredIsPath(g, s, m[s]);
      if AllOpposed(g, m[s]) {
        if m[s] == [s] {
          assert Mirror(g, [s][1..]) == [];
        } else {
          MirrorConnects(g, Start(g, s), m[s], End(g, s));
        }
      }
    }
  }

  class ShortcutCache {
    const g: Graph
    var shortcuts: map<GraphId, seq<GraphId>>

    ghost predicate Valid()
      reads this
    {
      WellFormed(g) && LengthsInRange(g) && Filled(g, shortcuts)
    }

    /** Without a reader (`prefill` false) nothing is cached. */
    constructor (g: Graph, tiles: seq<TileId>, prefill: bool)
      requires WellFormed(g) && LengthsInRange(g) && forall t | t in tiles :: t in g
      ensures Valid() && this.g == g
      ensures !prefill ==> shortcuts == map[]
      ensures prefill ==>
        forall e | ValidEdge(g, e) && e.tile in tiles && Edge(g, e).shortcutMask != 0 :: e in shortcuts
    {
      this.g := g;
      shortcuts := map[];
      new;
      if prefill {
        Fill(tiles);
      }
    }

    method Fill(tiles: seq<TileId>)
      requires Valid() && forall t | t in tiles :: t in g
      modifies this
      ensures Valid()
      ensures forall e | ValidEdge(g, e) && e.tile in tiles && Edge(g, e).shortcutMask != 0 :: e in shortcuts
    {
      hide Filled, WellFormed, LengthsInRange;
      for t := 0 to |tiles|
        invariant Valid()
        invariant forall e | ValidEdge(g, e) && e.tile in tiles[..t] && Edge(g, e).shortcutMask != 0 :: e in shortcuts
      {
        for i := 0 to |g[tiles[t]].edges|
          invariant Valid()
          invariant forall e | ValidEdge(g, e) && e.tile in tiles[..t] && Edge(g, e).shortcutMask != 0 :: e in shortcuts
          invariant forall e | ValidEdge(g, e) && e.tile == tiles[t] && e.id < i && Edge(g, e).shortcutMask != 0 ::
                      e in shortcuts
        {
          var id := GraphId(tiles[t], i);
          if Edge(g, id).shortcutMask != 0 && id !in shortcuts {
            CacheBoth(id);
          }
        }
      }
    }

    /** Caches the shortcut and, without another walk, its opposing edge. */
    method CacheBoth(sc: GraphId)
      requires Valid() && ValidEdge(g, sc) && sc !in shortcuts && Edge(g, sc).shortcutMask != 0
      modifies this
      ensures Valid() && Source(g, shortcuts, sc)
      ensures forall k :: k in shortcuts <==> k in old(shortcuts) || k == sc || Opposing(g, sc) == Some(k)
      ensures forall k | k in old(shortcuts) :: shortcuts[k] == old(shortcuts)[k]
    {
      hide WellFormed, Expansion, LengthsInRange, Start, Opposing, Turned, Filled;
      ghost var m := shortcuts;
      var recovered := RecoverShortcut(g, sc);
      shortcuts := shortcuts[sc := recovered];
      var oppId := Opposing(g, sc);
      if oppId.None? {
        FillBoth(g, m, shortcuts, sc);
        return;
      }
      OpposingTurnsAround(g, sc);
      var mirrored := OpposeAll(g, recovered, sc, oppId.value);
      if oppId.value !in shortcuts {
        shortcuts := shortcuts[oppId.value := mirrored];
      } else {
        HoldsBoth(g, m, oppId.value);
      }
      FillBoth(g, m, shortcuts, sc);
    }

    method Get(id: GraphId) returns (edges: seq<GraphId>)
      requires Valid() && ValidEdge(g, id)
      ensures if id in shortcuts then edges == shortcuts[id] else Recovered(g, id, edges)
      ensures edges == [id] || Connects(g, Start(g, id), edges, End(g, id))
    {
      hide WellFormed, LengthsInRange, Filled, Expansion;
      if id in shortcuts {
        edges := shortcuts[id];
        EntryIsPath(g, shortcuts, id);
      } else {
        edges := RecoverShortcut(g, id);
        RecoveredIsPath(g, id, edges);
      }
    }
  }

  /** Replaces every edge of the reversed expansion by its opposing edge; one edge without an opposing
      edge spoils it all. */
  method OpposeAll(g: Graph, recovered: seq<GraphId>, sc: GraphId, oppId: GraphId) returns (mirrored: seq<GraphId>)
    requires WellFormed(g) && ValidEdge(g, sc) && Opposing(g, sc) == Some(oppId) && ValidEdge(g, oppId)
    requires Recovered(g, sc, recovered)
    ensures mirrored == Turned(g, oppId, recovered)
  {
    hide WellFormed, LengthsInRange, Start, Opposing, Mirror;
    RecoveredIsValid(g, sc, recovered);
    hide Recovered;
    mirrored := [];
    var i := |recovered|;
    while i > 0
      invariant 0 <= i <= |recovered| && AllOpposed(g, recovered[i..]) && |mirrored| == |recovered| - i
      invariant forall k | 0 <= k < |mirrored| :: Some(mirrored[k]) == Opposing(g, recovered[|recovered| - 1 - k])
    {
      i := i - 1;
      var opp := Opposing(g, recovered[i]);
      if opp.None? {
        return [oppId];
      }
      mirrored := mirrored + [opp.value];
    }
    assert recovered[0..] == recovered;
    forall k | 0 <= k < |recovered|
      ensures mirrored[k] == Mirror(g, recovered)[k]
    {
      MirrorElements(g, recovered, k);
    }
    assert mirrored == Mirror(g, recovered);
  }
}
