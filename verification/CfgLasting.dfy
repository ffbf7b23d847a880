/** When the three passes, run in any order, never meet the assertion of the merge pass. */
module CfgLasting {
  import opened SsaFunction
  import opened SsaRewrite
  import opened SsaRuns
  import opened SsaDead
  import opened SsaEdges
  import opened CfgPasses
  import opened CfgFixpoint
  import opened CfgEffect
  import opened CfgOrder
  import opened SimplifyCfg

  // ----- Edges that stay ---------------------------------------------------------------------------

  /** A successor edge that no constant branch of a block in ls discards. */
  ghost predicate Live(f: Func, ls: seq<Label>, p: Label, i: nat) {
    p in f.blocks && i < |f.blocks[p].term.succs| && !(p in ls && ConstantBranch(f, p) && i == RemovedIndex(f, p))
  }

  ghost predicate LiveEdge(f: Func, ls: seq<Label>, p: Label, q: Label) {
    exists i: nat :: Live(f, ls, p, i) && f.blocks[p].term.succs[i] == q
  }

  ghost predicate LivePath(f: Func, ls: seq<Label>, p: seq<Label>) {
    && |p| > 0 && p[0] == f.entry && f.entry in f.blocks
    && forall k :: 0 < k < |p| ==> LiveEdge(f, ls, p[k - 1], p[k]) && p[k] in f.blocks
  }

  /** Every block can be reached over such edges. */
  ghost predicate AllLive(f: Func, ls: seq<Label>) {
    forall l :: l in f.blocks ==> exists p :: LivePath(f, ls, p) && p[|p| - 1] == l
  }

  lemma LivePathIsPath(f: Func, ls: seq<Label>, p: seq<Label>)
    requires LivePath(f, ls, p)
    ensures Path(f, p)
  {
    forall k | 0 < k < |p| ensures Edges(f, p[k - 1], p[k]) > 0 {
      var i: nat :| Live(f, ls, p[k - 1], i) && f.blocks[p[k - 1]].term.succs[i] == p[k];
      var succs := f.blocks[p[k - 1]].term.succs;
      assert succs[i] in succs;
      CountIn(succs, p[k]);
    }
  }

  lemma AllLiveReachable(f: Func, ls: seq<Label>)
    requires AllLive(f, ls)
    ensures AllReachable(f)
  {
    forall l | l in f.blocks ensures Reachable(f, l) {
      var p :| LivePath(f, ls, p) && p[|p| - 1] == l;
      LivePathIsPath(f, ls, p);
    }
  }

  lemma LivePathFewer(f: Func, ls: seq<Label>, fewer: seq<Label>, p: seq<Label>)
    requires LivePath(f, ls, p) && forall l :: l in fewer ==> l in ls
    ensures LivePath(f, fewer, p)
  {
    forall k | 0 < k < |p| ensures LiveEdge(f, fewer, p[k - 1], p[k]) {
      LiveEdgeFewer(f, ls, fewer, p[k - 1], p[k]);
    }
  }

  lemma LiveEdgeFewer(f: Func, ls: seq<Label>, fewer: seq<Label>, p: Label, q: Label)
    requires LiveEdge(f, ls, p, q) && (p in fewer ==> p in ls)
    ensures LiveEdge(f, fewer, p, q)
  {
    var i: nat :| Live(f, ls, p, i) && f.blocks[p].term.succs[i] == q;
    assert Live(f, fewer, p, i);
  }

  /** With fewer blocks to eliminate branches in, more edges stay. */
  lemma AllLiveFewer(f: Func, ls: seq<Label>, fewer: seq<Label>)
    requires AllLive(f, ls) && forall l :: l in fewer ==> l in ls
    ensures AllLive(f, fewer)
  {
    forall l | l in f.blocks ensures exists p :: LivePath(f, fewer, p) && p[|p| - 1] == l {
      var p :| LivePath(f, ls, p) && p[|p| - 1] == l;
      LivePathFewer(f, ls, fewer, p);
    }
  }

  // ----- Eliminating branches ----------------------------------------------------------------------

  /** In g the branch of x is gone, if it was constant; the terminator of l leads where it did. */
  ghost predicate Resolved(f: Func, g: Func, x: Label, l: Label)
    requires l in f.blocks
  {
    && l in g.blocks && g.entry == f.entry && g.blocks.Keys == f.blocks.Keys
    && g.blocks[l].term.succs
      == (if l == x && ConstantBranch(f, x) then [f.blocks[x].term.succs[1 - RemovedIndex(f, x)]] else f.blocks[l].term.succs)
    && (ConstantBranch(g, l) <==> ConstantBranch(f, l) && l != x)
    && (ConstantBranch(g, l) ==> RemovedIndex(g, l) == RemovedIndex(f, l))
  }

  lemma EliminateAtTerm(f: Func, x: Label, l: Label)
    requires l in f.blocks
    ensures Resolved(f, EliminateAt(f, x), x, l)
  {
    OtherBranches(f, x, l);
    if ConstantBranch(f, x) {
      var i := RemovedIndex(f, x);
      var s, y := SetTerm(f, x, Jump, i), f.blocks[x].term.succs[i];
      SetJump(f, x, i, s);
      RemovePredecessorTerm(s, y, x, l);
    }
  }

  lemma RemovePredecessorTerm(s: Func, y: Label, x: Label, l: Label)
    requires y in s.blocks && l in s.blocks
    ensures var g := RemovePredecessor(s, y, x);
      && g.entry == s.entry && g.blocks.Keys == s.blocks.Keys
      && g.blocks[l].term.succs == s.blocks[l].term.succs
      && (s.blocks[l].term.kind.CondJump? && s.blocks[l].term.kind.cond.Const? ==> g.blocks[l].term == s.blocks[l].term)
  {
    var b := DropEntries(s, y, x);
    assert b.blocks[l].term == s.blocks[l].term;
    ErasePhisTerm(b, y, l);
  }

  lemma ErasePhisTerm(b: Func, y: Label, l: Label)
    requires y in b.blocks && l in b.blocks
    ensures var g := ErasePhis(b, y);
      && g.entry == b.entry && g.blocks.Keys == b.blocks.Keys
      && g.blocks[l].term == SubTerm(b.blocks[l].term, EmptyDefs(b.blocks[y].phis), Undef)
  {
  }

  lemma LiveAfter(f: Func, g: Func, ls: seq<Label>, p: Label, q: Label)
    requires ls != [] && LiveEdge(f, ls, p, q) && Resolved(f, g, ls[0], p)
    ensures LiveEdge(g, ls[1..], p, q)
  {
    var x := ls[0];
    var i: nat :| Live(f, ls, p, i) && f.blocks[p].term.succs[i] == q;
    assert x in ls && forall l :: l in ls[1..] ==> l in ls;
    if p == x && ConstantBranch(f, x) {
      assert i == 1 - RemovedIndex(f, x);
      assert Live(g, ls[1..], p, 0);
    } else {
      assert Live(g, ls[1..], p, i);
    }
  }

  /** The edges that no constant branch discards are there after the branches have gone. */
  lemma {:induction false} LiveReachable(f: Func, ls: seq<Label>)
    requires AllLive(f, ls)
    ensures AllReachable(Eliminate(f, ls))
    decreases |ls|
  {
    if ls == [] {
      AllLiveReachable(f, ls);
    } else {
      AllLiveAfter(f, ls);
      LiveReachable(EliminateAt(f, ls[0]), ls[1..]);
    }
  }

  lemma EliminateKeys(f: Func, x: Label)
    ensures EliminateAt(f, x).blocks.Keys == f.blocks.Keys && EliminateAt(f, x).entry == f.entry
  {
    if x in f.blocks {
      EliminateAtTerm(f, x, x);
    }
  }

  lemma AllLiveAfter(f: Func, ls: seq<Label>)
    requires AllLive(f, ls) && ls != []
    ensures AllLive(EliminateAt(f, ls[0]), ls[1..])
  {
    var g := EliminateAt(f, ls[0]);
    forall l | l in g.blocks ensures exists p :: LivePath(g, ls[1..], p) && p[|p| - 1] == l {
      EliminateKeys(f, ls[0]);
      var p :| LivePath(f, ls, p) && p[|p| - 1] == l;
      forall k | 0 < k < |p| ensures LiveEdge(g, ls[1..], p[k - 1], p[k]) {
        assert LiveEdge(f, ls, p[k - 1], p[k]);
        EliminateAtTerm(f, ls[0], p[k - 1]);
        LiveAfter(f, g, ls, p[k - 1], p[k]);
      }
      assert LivePath(g, ls[1..], p);
    }
  }

  lemma {:induction false} NothingToEliminate(f: Func, ls: seq<Label>)
    requires forall l :: l in ls ==> !ConstantBranch(f, l)
    ensures Eliminate(f, ls) == f
    decreases |ls|
  {
    if ls != [] {
      NothingToEliminate(f, ls[1..]);
    }
  }

  lemma ReachableNotDead(f: Func, l: Label)
    requires Reachable(f, l)
    ensures !Dead(f, l)
  {
    if l != f.entry {
      var p :| Path(f, p) && p[|p| - 1] == l;
      assert Edges(f, p[|p| - 2], l) > 0;
    }
  }

  lemma {:induction false} NothingDead(f: Func, ls: seq<Label>)
    requires AllReachable(f)
    ensures RemoveDead(f, ls) == f
    decreases |ls|
  {
    if ls != [] {
      if ls[0] in f.blocks {
        ReachableNotDead(f, ls[0]);
      }
      NothingDead(f, ls[1..]);
    }
  }

  // ----- One merge pass among the others -----------------------------------------------------------

  /** The merge pass is in the list at most once, as in doSimplify. */
  predicate OneMerge(passes: seq<Pass>)
    decreases |passes|
  {
    passes == [] || (if passes[0].SinglePredecessors? then SinglePredecessors !in passes[1..] else OneMerge(passes[1..]))
  }

  /** The other two passes never fail. */
  lemma {:induction false} NoMergeSucceeds(f: Func, ls: seq<Label>, passes: seq<Pass>)
    requires SinglePredecessors !in passes
    ensures AfterPasses(f, ls, passes).Some?
    decreases |passes|
  {
    if passes != [] {
      assert passes[0] in passes;
      var g := AfterPass(f, ls, passes[0]).value;
      NoMergeSucceeds(g, Remaining(ls, g.blocks.Keys), passes[1..]);
    }
  }

  /** With every block reachable over edges that no constant branch discards, no order of the
      three passes meets the assertion. */
  lemma {:induction false} OneMergeSucceeds(f: Func, ls: seq<Label>, passes: seq<Pass>)
    requires Valid(f) && AllLive(f, ls) && OneMerge(passes)
    ensures AfterPasses(f, ls, passes).Some?
    decreases |passes|
  {
    if passes != [] {
      AllLiveReachable(f, ls);
      match passes[0]
      case SinglePredecessors =>
        MergeSucceeds(f, ls);
        var g := Merge(f, ls).value;
        NoMergeSucceeds(g, Remaining(ls, g.blocks.Keys), passes[1..]);
      case DeadBlocks =>
        NothingDead(f, ls);
        var rest := Remaining(ls, f.blocks.Keys);
        AllLiveFewer(f, ls, rest);
        OneMergeSucceeds(f, rest, passes[1..]);
      case CondBranches =>
        var g := Eliminate(f, ls);
        var rest := Remaining(ls, g.blocks.Keys);
        EliminateCorrect(f, ls);
        EliminatedLive(f, ls, rest);
        OneMergeSucceeds(g, rest, passes[1..]);
    }
  }

  /** So then the passes, in any order, keep the function well-formed and change nothing observable. */
  lemma OneMergeCorrect(f: Func, ls: seq<Label>, passes: seq<Pass>)
    requires Valid(f) && AllLive(f, ls) && OneMerge(passes)
    ensures AfterPasses(f, ls, passes).Some? && Simplifies(f, AfterPasses(f, ls, passes).value)
  {
    OneMergeSucceeds(f, ls, passes);
    PassesCorrect(f, ls, passes);
  }

  lemma EliminatedLive(f: Func, ls: seq<Label>, rest: seq<Label>)
    requires AllLive(f, ls) && forall l :: l in rest ==> l in ls
    ensures AllLive(Eliminate(f, ls), rest)
  {
    var g := Eliminate(f, ls);
    LiveReachable(f, ls);
    forall l ensures l in rest ==> !ConstantBranch(g, l) {
      EliminateLeaves(f, ls, l);
    }
    ReachableLive(g, rest);
  }

  /** Without constant branches, every edge stays. */
  lemma ReachableLive(g: Func, ls: seq<Label>)
    requires AllReachable(g) && forall l :: l in ls ==> !ConstantBranch(g, l)
    ensures AllLive(g, ls)
  {
    forall l | l in g.blocks ensures exists p :: LivePath(g, ls, p) && p[|p| - 1] == l {
      var p :| Path(g, p) && p[|p| - 1] == l;
      forall k | 0 < k < |p| ensures LiveEdge(g, ls, p[k - 1], p[k]) {
        assert Edges(g, p[k - 1], p[k]) > 0;
        EdgeIsLive(g, ls, p[k - 1], p[k]);
      }
      assert LivePath(g, ls, p);
    }
  }

  lemma EdgeIsLive(g: Func, ls: seq<Label>, p: Label, q: Label)
    requires Edges(g, p, q) > 0 && (p in ls ==> !ConstantBranch(g, p))
    ensures LiveEdge(g, ls, p, q)
  {
    var succs := g.blocks[p].term.succs;
    CountIn(succs, q);
    var i: nat :| 0 <= i < |succs| && succs[i] == q;
    assert Live(g, ls, p, i);
  }
}
