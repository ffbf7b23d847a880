/** Exactly when the three passes meet the assertion if the merge pass is among them once, as
    in doSimplify: told from the edges that the passes before it leave, without what they do
    to PHI nodes. */
module CfgOneMerge {
  import opened Wrappers
  import opened SsaFunction
  import opened SsaRewrite
  import opened CfgPasses
  import opened CfgUpdates
  import opened CfgAsserts
  import opened CfgEffect
  import opened CfgLasting
  import opened CfgOrder
  import opened CfgSkeleton
  import opened SimplifyCfg

  // ----- The merge pass ---------------------------------------------------------------------------------

  lemma FollowsMergeable(g: Func, t: Func, l: Label, p: Label)
    requires Follows(g, t)
    ensures Mergeable(g, l, p) <==> Mergeable(t, l, p)
  {
    forall q ensures Edges(g, q, l) == Edges(t, q, l) {
      FollowsEdges(g, t, q, l);
    }
    FollowsEdges(g, t, p, l);
  }

  lemma FollowsChain(g: Func, t: Func, gone: set<Label>, p: seq<Label>)
    requires Follows(g, t)
    ensures Chain(g, gone, p) <==> Chain(t, gone, p)
  {
    forall i ensures Link(g, p, i) <==> Link(t, p, i) {
      if 0 <= i < |p| - 1 {
        FollowsMergeable(g, t, p[i], p[i + 1]);
      }
    }
  }

  lemma FollowsMerges(g: Func, t: Func, gone: set<Label>, l: Label)
    requires Follows(g, t)
    ensures Merges(g, gone, l) <==> Merges(t, gone, l)
  {
    forall p ensures Mergeable(g, l, p) <==> Mergeable(t, l, p) {
      FollowsMergeable(g, t, l, p);
    }
    forall p ensures Chain(g, gone, p) <==> Chain(t, gone, p) {
      FollowsChain(g, t, gone, p);
    }
  }

  lemma {:induction false} FollowsMerged(g: Func, t: Func, gone: set<Label>, ls: seq<Label>)
    requires Follows(g, t)
    ensures Merged(g, gone, ls) == Merged(t, gone, ls)
    decreases |ls|
  {
    if ls != [] {
      FollowsMerges(g, t, gone, ls[0]);
      FollowsMerged(g, t, gone + {ls[0]}, ls[1..]);
    }
  }

  /** Labels that are not blocks make no difference. */
  lemma {:induction false} MergedRemaining(f: Func, gone: set<Label>, ls: seq<Label>)
    ensures Merged(f, gone, Remaining(ls, f.blocks.Keys)) == Merged(f, gone, ls)
    decreases |ls|
  {
    if ls != [] {
      var l, rest := ls[0], Remaining(ls[1..], f.blocks.Keys);
      if l in f.blocks {
        MergedRemaining(f, gone + {l}, ls[1..]);
        assert Remaining(ls, f.blocks.Keys) == [l] + rest && ([l] + rest)[1..] == rest;
      } else {
        MergedRemaining(f, gone, ls[1..]);
        MergedSkip(f, l, gone, ls[1..]);
        assert Remaining(ls, f.blocks.Keys) == rest;
      }
    }
  }

  // ----- Its PHI nodes ----------------------------------------------------------------------------------

  /** The entries of a PHI node of block l that come over an edge. */
  function OverEdges(f: Func, l: Label, incoming: seq<Incoming>): (r: seq<Incoming>)
    ensures forall k :: 0 <= k < |r| ==> r[k] in incoming && Edges(f, r[k].from, l) > 0
  {
    if incoming == [] then []
    else (if Edges(f, incoming[0].from, l) > 0 then [incoming[0]] else []) + OverEdges(f, l, incoming[1..])
  }

  /** The PHI nodes of all blocks with the entries that come over an edge. */
  function Trimmed(f: Func): Func {
    f.(blocks := map l | l in f.blocks ::
      f.blocks[l].(phis := seq(|f.blocks[l].phis|, k requires 0 <= k < |f.blocks[l].phis| =>
        Phi(f.blocks[l].phis[k].dst, OverEdges(f, l, f.blocks[l].phis[k].incoming)))))
  }

  lemma {:induction false} OverEdgesValue(f: Func, l: Label, incoming: seq<Incoming>, p: Label)
    requires Edges(f, p, l) > 0
    ensures FromCount(OverEdges(f, l, incoming), p) == FromCount(incoming, p)
    ensures ValueFrom(OverEdges(f, l, incoming), Some(p)) == ValueFrom(incoming, Some(p))
  {
    if incoming != [] {
      var rest := OverEdges(f, l, incoming[1..]);
      OverEdgesValue(f, l, incoming[1..], p);
      assert [] + rest == rest && ([incoming[0]] + rest)[1..] == rest;
    }
  }

  lemma TrimmedPhis(t: Func, l: Label)
    requires l in t.blocks && (Entered(t, l) ==> PhisLike(t, l, t.blocks[l].phis, t.blocks[l].phis))
    ensures BlockLike(t, l, Trimmed(t).blocks[l], t.blocks[l])
  {
    var phis, trimmed := t.blocks[l].phis, Trimmed(t).blocks[l].phis;
    SameDsts(phis, trimmed);
    if Entered(t, l) {
      forall k | 0 <= k < |trimmed| ensures PhiLike(t, l, trimmed[k], phis[k]) {
        assert PhiLike(t, l, phis[k], phis[k]);
        forall p ensures EntryLike(t, l, trimmed[k], phis[k], p) {
          assert EntryLike(t, l, phis[k], phis[k], p);
          if Edges(t, p, l) > 0 {
            OverEdgesValue(t, l, phis[k].incoming, p);
          }
        }
      }
    }
  }

  /** Since some function follows t, so does t with its PHI nodes trimmed. */
  lemma TrimmedFollows(g: Func, t: Func)
    requires Follows(g, t)
    ensures Follows(Trimmed(t), t)
  {
    forall l | l in t.blocks ensures BlockLike(t, l, Trimmed(t).blocks[l], t.blocks[l]) {
      var phis := t.blocks[l].phis;
      assert BlockLike(t, l, g.blocks[l], t.blocks[l]);
      if Entered(t, l) {
        forall k | 0 <= k < |phis| ensures PhiLike(t, l, phis[k], phis[k]) {
          assert PhiLike(t, l, g.blocks[l].phis[k], phis[k]);
          forall p ensures EntryLike(t, l, phis[k], phis[k], p) {
            assert EntryLike(t, l, g.blocks[l].phis[k], phis[k], p);
          }
        }
      }
      TrimmedPhis(t, l);
    }
  }

  /** What comes over the only edge of l. */
  ghost function SourcesAt(t: Func, l: Label): (r: seq<Value>)
    requires l in t.blocks && HasMergeable(t, l)
    ensures |r| == |t.blocks[l].phis|
  {
    var p :| Mergeable(t, l, p);
    seq(|t.blocks[l].phis|, k requires 0 <= k < |t.blocks[l].phis| => ValueFrom(t.blocks[l].phis[k].incoming, Some(p)))
  }

  ghost function Sources(t: Func, ls: seq<Label>): (r: seq<Value>)
    requires forall l :: l in ls ==> HasMergeable(t, l)
    decreases |ls|
  {
    if ls == [] then [] else assert HasMergeable(t, ls[0]); SourcesAt(t, ls[0]) + Sources(t, ls[1..])
  }

  /** Every PHI node of these blocks has entries, the first of them from the block that l is merged into. */
  ghost predicate FirstIsSole(h: Func, ls: seq<Label>) {
    forall l, k {:trigger h.blocks[l].phis[k]} :: l in ls && l in h.blocks && 0 <= k < |h.blocks[l].phis| ==>
      h.blocks[l].phis[k].incoming != [] && Mergeable(h, l, h.blocks[l].phis[k].incoming[0].from)
  }

  ghost predicate SourceLike(t: Func, phi: Phi, v: Value, r: Reg) {
    phi.dst == r && !Lost(t, r) && phi.incoming != [] && Like(t, phi.incoming[0].value, v)
  }

  lemma SourcesLikeAt(h: Func, t: Func, l: Label, k: nat)
    requires Follows(h, t) && l in t.blocks && HasMergeable(t, l) && FirstIsSole(h, [l])
    requires k < |t.blocks[l].phis| == |h.blocks[l].phis|
    ensures SourceLike(t, h.blocks[l].phis[k], SourcesAt(t, l)[k], t.blocks[l].phis[k].dst)
  {
    var p :| Mergeable(t, l, p) && SourcesAt(t, l)[k] == ValueFrom(t.blocks[l].phis[k].incoming, Some(p));
    assert Edges(t, p, l) > 0 && Entered(t, l);
    assert BlockLike(t, l, h.blocks[l], t.blocks[l]);
    var phi := h.blocks[l].phis[k];
    assert PhiLike(t, l, phi, t.blocks[l].phis[k]);
    assert EntryLike(t, l, phi, t.blocks[l].phis[k], p);
    FollowsMergeable(h, t, l, phi.incoming[0].from);
    MergeableUnique(t, l, p, phi.incoming[0].from);
    PhiDefsAt(t.blocks[l].phis, k);
  }

  lemma SamePhiCount(h: Func, t: Func, l: Label)
    requires Follows(h, t) && HasMergeable(t, l)
    ensures l in t.blocks && l in h.blocks && |h.blocks[l].phis| == |t.blocks[l].phis|
  {
    var p :| Mergeable(t, l, p);
    assert Edges(t, p, l) > 0 && Entered(t, l);
    assert BlockLike(t, l, h.blocks[l], t.blocks[l]);
  }

  lemma {:induction false} SourcesLike(h: Func, t: Func, ls: seq<Label>)
    requires Follows(h, t) && (forall l :: l in ls ==> HasMergeable(t, l)) && FirstIsSole(h, ls)
    ensures |PhisOf(h, ls)| == |PhisOf(t, ls)| == |Sources(t, ls)|
    ensures forall k :: 0 <= k < |PhisOf(h, ls)| ==> SourceLike(t, PhisOf(h, ls)[k], Sources(t, ls)[k], PhisOf(t, ls)[k].dst)
    decreases |ls|
  {
    if ls != [] {
      var l := ls[0];
      assert HasMergeable(t, l) && l in ls && forall c :: c in ls[1..] ==> c in ls;
      SourcesLike(h, t, ls[1..]);
      SamePhiCount(h, t, l);
      forall k | 0 <= k < |t.blocks[l].phis|
        ensures SourceLike(t, h.blocks[l].phis[k], SourcesAt(t, l)[k], t.blocks[l].phis[k].dst)
      {
        SourcesLikeAt(h, t, l, k);
      }
    }
  }

  /** PHI nodes with the same sources go round in a circle both or neither. */
  lemma AcyclicLike(t: Func, a: seq<Phi>, b: seq<Phi>, vs: seq<Value>, rs: seq<Phi>)
    requires |a| == |b| == |vs| == |rs|
    requires forall k :: 0 <= k < |a| ==> SourceLike(t, a[k], vs[k], rs[k].dst)
    requires forall k :: 0 <= k < |b| ==> SourceLike(t, b[k], vs[k], rs[k].dst)
    ensures Acyclic(a) ==> Acyclic(b)
  {
    if rank: Reg -> nat :| Ranked(a, rank) {
      forall k | 0 <= k < |b| ensures RankedPhi(b, k, rank) {
        assert RankedPhi(a, k, rank);
        assert SourceLike(t, a[k], vs[k], rs[k].dst) && SourceLike(t, b[k], vs[k], rs[k].dst);
        forall j | 0 <= j < |b| && b[k].incoming[0].value == Use(b[j].dst) ensures rank(b[j].dst) < rank(b[k].dst) {
          assert SourceLike(t, a[j], vs[j], rs[j].dst) && SourceLike(t, b[j], vs[j], rs[j].dst);
        }
      }
      assert Ranked(b, rank);
    }
  }

  lemma SoleInValid(g: Func, ls: seq<Label>)
    requires Valid(g) && forall l :: l in ls ==> HasMergeable(g, l)
    ensures FirstIsSole(g, ls)
  {
    var av :| Wf(g, av);
    forall l, k | l in ls && l in g.blocks && 0 <= k < |g.blocks[l].phis|
      ensures g.blocks[l].phis[k].incoming != [] && Mergeable(g, l, g.blocks[l].phis[k].incoming[0].from)
    {
      var p :| Mergeable(g, l, p);
      var phi := g.blocks[l].phis[k];
      assert BlockOk(g, av, l) && PhiOk(g, av, l, phi);
      forall q ensures FromCount(phi.incoming, q) == if q == p then 1 else 0 {
        assert FromCount(phi.incoming, q) == Edges(g, q, l);
      }
      OneIncoming(phi.incoming, p);
    }
  }

  lemma SoleInTrimmed(t: Func, ls: seq<Label>)
    requires Follows(Trimmed(t), t) && forall l :: l in ls ==> HasMergeable(t, l)
    ensures FirstIsSole(Trimmed(t), ls)
  {
    var u := Trimmed(t);
    forall l, k | l in ls && l in u.blocks && 0 <= k < |u.blocks[l].phis|
      ensures u.blocks[l].phis[k].incoming != [] && Mergeable(u, l, u.blocks[l].phis[k].incoming[0].from)
    {
      var p :| Mergeable(t, l, p);
      assert Edges(t, p, l) > 0 && Entered(t, l);
      var phi := u.blocks[l].phis[k];
      assert BlockLike(t, l, u.blocks[l], t.blocks[l]) && PhiLike(t, l, phi, t.blocks[l].phis[k]);
      assert EntryLike(t, l, phi, t.blocks[l].phis[k], p);
      assert Edges(t, phi.incoming[0].from, l) > 0;
      FollowsMergeable(u, t, l, p);
    }
  }

  lemma AcyclicFollows(g: Func, t: Func, ls: seq<Label>)
    requires Valid(g) && Follows(g, t)
    ensures Acyclic(PhisOf(g, Merged(g, {}, ls))) <==> Acyclic(PhisOf(Trimmed(t), Merged(Trimmed(t), {}, ls)))
  {
    var u := Trimmed(t);
    TrimmedFollows(g, t);
    FollowsMerged(g, t, {}, ls);
    FollowsMerged(u, t, {}, ls);
    var ms := Merged(t, {}, ls);
    assert (forall l :: l in ms ==> HasMergeable(t, l)) && forall l :: l in ms ==> HasMergeable(g, l);
    SoleInValid(g, ms);
    SoleInTrimmed(t, ms);
    SourcesLike(g, t, ms);
    SourcesLike(u, t, ms);
    AcyclicLike(t, PhisOf(g, ms), PhisOf(u, ms), Sources(t, ms), PhisOf(t, ms));
    AcyclicLike(t, PhisOf(u, ms), PhisOf(g, ms), Sources(t, ms), PhisOf(t, ms));
  }

  // ----- The exact condition --------------------------------------------------------------------------

  lemma {:induction false} EliminateKeysAll(f: Func, ls: seq<Label>)
    ensures Eliminate(f, ls).blocks.Keys == f.blocks.Keys
    decreases |ls|
  {
    if ls != [] {
      EliminateKeys(f, ls[0]);
      EliminateKeysAll(EliminateAt(f, ls[0]), ls[1..]);
    }
  }

  lemma {:induction false} RemoveDeadKeys(f: Func, ls: seq<Label>)
    ensures RemoveDead(f, ls).blocks.Keys <= f.blocks.Keys
    decreases |ls|
  {
    if ls != [] {
      forall l | l in RemoveDeadAt(f, ls[0]).blocks ensures l in f.blocks {
        RemoveDeadAtShape(f, ls[0], l, l);
      }
      RemoveDeadKeys(RemoveDeadAt(f, ls[0]), ls[1..]);
    }
  }

  lemma {:induction false} MergeKeys(f: Func, ls: seq<Label>)
    requires Valid(f) && Merge(f, ls).Some?
    ensures Merge(f, ls).value.blocks.Keys <= f.blocks.Keys
    decreases |ls|
  {
    if ls != [] {
      if HasMergeable(f, ls[0]) {
        var pred :| Mergeable(f, ls[0], pred);
        MergeAtIs(f, ls[0], pred);
        MergedEdges(f, ls[0], pred, pred, pred);
      }
      MergeAtCorrect(f, ls[0]);
      MergeKeys(MergeAt(f, ls[0]).value, ls[1..]);
    }
  }

  lemma PassKeys(f: Func, ls: seq<Label>, pass: Pass)
    requires Valid(f) && AfterPass(f, ls, pass).Some?
    ensures AfterPass(f, ls, pass).value.blocks.Keys <= f.blocks.Keys
  {
    match pass
    case CondBranches => EliminateKeysAll(f, ls);
    case SinglePredecessors => MergeKeys(f, ls);
    case DeadBlocks => RemoveDeadKeys(f, ls);
  }

  /** Passes one after the other: the later ones get the labels that are left. */
  lemma {:induction false} PassesApp(f: Func, ls: seq<Label>, before: seq<Pass>, after: seq<Pass>, h: Func) returns (rest: seq<Label>)
    requires Valid(f) && AfterPasses(f, ls, before) == Some(h)
    ensures h.blocks.Keys <= f.blocks.Keys
    ensures Remaining(rest, h.blocks.Keys) == Remaining(ls, h.blocks.Keys)
    ensures AfterPasses(f, ls, before + after) == AfterPasses(h, rest, after)
    decreases |before|
  {
    if before == [] {
      rest := ls;
      assert before + after == after;
    } else {
      var g := AfterPass(f, ls, before[0]).value;
      PassKeys(f, ls, before[0]);
      PassCorrect(f, ls, before[0]);
      assert (before + after)[0] == before[0] && (before + after)[1..] == before[1..] + after;
      rest := PassesApp(g, Remaining(ls, g.blocks.Keys), before[1..], after, h);
      RemainingTwice(ls, g.blocks.Keys, h.blocks.Keys);
    }
  }

  lemma {:induction false} PassesFailed(f: Func, ls: seq<Label>, before: seq<Pass>, after: seq<Pass>)
    requires AfterPasses(f, ls, before).None?
    ensures AfterPasses(f, ls, before + after).None?
    decreases |before|
  {
    assert (before + after)[0] == before[0] && (before + after)[1..] == before[1..] + after;
    if AfterPass(f, ls, before[0]).Some? {
      var g := AfterPass(f, ls, before[0]).value;
      PassesFailed(g, Remaining(ls, g.blocks.Keys), before[1..], after);
    }
  }

  /** Where the k-th pass merges, the PHI values of the blocks it merges do not go round in a circle. */
  ghost predicate MergesWell(f: Func, ls: seq<Label>, passes: seq<Pass>, k: nat)
    requires k < |passes|
  {
    var before := AfterPasses(f, ls, passes[..k]);
    passes[k] == SinglePredecessors && before.Some? ==> Acyclic(PhisOf(before.value, Merged(before.value, {}, ls)))
  }

  lemma LastPassExact(f: Func, ls: seq<Label>, before: seq<Pass>, last: Pass, h: Func)
    requires Valid(f) && AfterPasses(f, ls, before) == Some(h)
    ensures AfterPasses(f, ls, before + [last]).Some?
      <==> (last == SinglePredecessors ==> Acyclic(PhisOf(h, Merged(h, {}, ls))))
  {
    var rest := PassesApp(f, ls, before, [last], h);
    assert [last][1..] == [];
    if last == SinglePredecessors {
      PassesCorrect(f, ls, before);
      MergedRemaining(h, {}, ls);
      MergedRemaining(h, {}, rest);
      MergeExact(h, rest);
    }
  }

  /** Any list of passes meets the assertion exactly when, at one of its merge passes, the PHI
      values of the blocks that pass merges go round in a circle. */
  lemma {:induction false} PassesExact(f: Func, ls: seq<Label>, passes: seq<Pass>)
    requires Valid(f)
    ensures AfterPasses(f, ls, passes).Some? <==> forall k :: 0 <= k < |passes| ==> MergesWell(f, ls, passes, k)
    decreases |passes|
  {
    if passes != [] {
      var n := |passes| - 1;
      var before := passes[..n];
      PassesExact(f, ls, before);
      assert passes == before + [passes[n]];
      forall k | 0 <= k < n ensures MergesWell(f, ls, passes, k) <==> MergesWell(f, ls, before, k) {
        assert before[..k] == passes[..k];
      }
      if AfterPasses(f, ls, before).None? {
        PassesFailed(f, ls, before, [passes[n]]);
      } else {
        var h := AfterPasses(f, ls, before).value;
        LastPassExact(f, ls, before, passes[n], h);
        assert forall k :: 0 <= k < n ==> MergesWell(f, ls, before, k);
        assert MergesWell(f, ls, passes, n)
          <==> (passes[n] == SinglePredecessors ==> Acyclic(PhisOf(h, Merged(h, {}, ls))));
      }
    }
  }

  /** With one merge pass, the passes meet the assertion exactly when the PHI values of the
      blocks it merges go round in a circle in the function that the passes before it make. */
  lemma OneMergeAfter(f: Func, ls: seq<Label>, before: seq<Pass>, after: seq<Pass>, h: Func)
    requires Valid(f) && SinglePredecessors !in before && SinglePredecessors !in after
    requires AfterPasses(f, ls, before) == Some(h)
    ensures AfterPasses(f, ls, before + ([SinglePredecessors] + after)).Some? <==> Acyclic(PhisOf(h, Merged(h, {}, ls)))
  {
    PassesCorrect(f, ls, before);
    var rest := PassesApp(f, ls, before, [SinglePredecessors] + after, h);
    MergedRemaining(h, {}, ls);
    MergedRemaining(h, {}, rest);
    MergeExact(h, rest);
    if Merge(h, rest).Some? {
      var g := Merge(h, rest).value;
      PassesCons(h, rest, SinglePredecessors, after, g);
      NoMergeSucceeds(g, Remaining(rest, g.blocks.Keys), after);
    }
  }

  /** The same told from f by the edges alone: whether the passes succeed depends on the PHI
      entries of f that come over the edges left by the passes before the merge. */
  lemma OneMergeExact(f: Func, ls: seq<Label>, before: seq<Pass>, after: seq<Pass>)
    requires Valid(f) && SinglePredecessors !in before && SinglePredecessors !in after
    ensures var t := Trimmed(Skeleton(f, ls, before));
      AfterPasses(f, ls, before + ([SinglePredecessors] + after)).Some? <==> Acyclic(PhisOf(t, Merged(t, {}, ls)))
  {
    FollowsSelf(f);
    PassesFollow(f, f, ls, before);
    PassesCorrect(f, ls, before);
    var h := AfterPasses(f, ls, before).value;
    OneMergeAfter(f, ls, before, after, h);
    AcyclicFollows(h, Skeleton(f, ls, before), ls);
  }
}
