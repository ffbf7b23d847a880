/** What the passes achieve: they do their work wherever there is work to do, and the flag
    of a pass says exactly whether there was any. */
module CfgEffect {
  import opened SsaFunction
  import opened SsaRewrite
  import opened SsaRuns
  import opened SsaDead
  import opened SsaEdges
  import opened CfgPasses
  import opened CfgUpdates
  import opened CfgFixpoint
  import opened SimplifyCfg

  // ----- Branches on constants ------------------------------------------------------------------

  lemma ConstantAfterSub(f: Func, rs: set<Reg>, l: Label)
    ensures ConstantBranch(f.(blocks := SubBlocks(f.blocks, rs, Undef)), l) <==> ConstantBranch(f, l)
  {
    var g := f.(blocks := SubBlocks(f.blocks, rs, Undef));
    assert g.blocks.Keys == f.blocks.Keys;
    if l in f.blocks {
      SubBlockDefs(f.blocks[l], rs, Undef);
    }
  }

  lemma ConstantAfterPhis(f: Func, x: Label, phis: seq<Phi>, l: Label)
    requires x in f.blocks
    ensures ConstantBranch(f.(blocks := f.blocks[x := f.blocks[x].(phis := phis)]), l) <==> ConstantBranch(f, l)
  {
  }

  lemma ConstantAfterRemove(s: Func, y: Label, x: Label, l: Label)
    requires y in s.blocks
    ensures ConstantBranch(RemovePredecessor(s, y, x), l) <==> ConstantBranch(s, l)
  {
    var t := DropEntries(s, y, x);
    var phis := t.blocks[y].phis;
    var u := t.(blocks := t.blocks[y := t.blocks[y].(phis := KeepPhis(phis))]);
    ConstantAfterPhis(s, y, phis, l);
    ConstantAfterPhis(t, y, KeepPhis(phis), l);
    ConstantAfterSub(u, EmptyDefs(phis), l);
  }

  /** Redirecting one branch neither resolves nor creates another. */
  lemma OtherBranches(f: Func, x: Label, l: Label)
    ensures ConstantBranch(EliminateAt(f, x), l) <==> ConstantBranch(f, l) && l != x
  {
    if ConstantBranch(f, x) {
      var i := RemovedIndex(f, x);
      var s := SetTerm(f, x, Jump, i);
      SetJump(f, x, i, s);
      assert SameBut(f, s, x);
      ConstantAfterRemove(s, f.blocks[x].term.succs[i], x, l);
    }
  }

  /** After the pass no block it visited branches on a constant; other blocks are as before. */
  lemma {:induction false} EliminateLeaves(f: Func, ls: seq<Label>, l: Label)
    ensures ConstantBranch(Eliminate(f, ls), l) <==> ConstantBranch(f, l) && l !in ls
    decreases |ls|
  {
    if ls != [] {
      OtherBranches(f, ls[0], l);
      EliminateLeaves(EliminateAt(f, ls[0]), ls[1..], l);
    }
  }

  /** Told from the terminator alone. */
  predicate FixedCondition(f: Func, l: Label) {
    l in f.blocks && f.blocks[l].term.kind.CondJump? && f.blocks[l].term.kind.cond.Const?
  }

  lemma FixedIsConstant(f: Func, l: Label)
    requires Valid(f)
    ensures FixedCondition(f, l) <==> ConstantBranch(f, l)
  {
    if FixedCondition(f, l) {
      ConstantBranchValid(f, l);
    }
  }

  /** After the pass no block it visited has a conditional branch on a constant; other blocks have
      theirs as before. */
  lemma EliminateResolves(f: Func, ls: seq<Label>, l: Label)
    requires Valid(f)
    ensures FixedCondition(Eliminate(f, ls), l) <==> FixedCondition(f, l) && l !in ls
  {
    EliminateCorrect(f, ls);
    EliminateLeaves(f, ls, l);
    FixedIsConstant(f, l);
    FixedIsConstant(Eliminate(f, ls), l);
  }

  lemma {:induction false} EliminateChangesAny(f: Func, ls: seq<Label>)
    ensures EliminateChanges(f, ls) <==> exists l :: l in ls && ConstantBranch(f, l)
    decreases |ls|
  {
    if ls != [] && !ConstantBranch(f, ls[0]) {
      EliminateChangesAny(f, ls[1..]);
      assert forall l :: l in ls <==> l == ls[0] || l in ls[1..];
    }
  }

  lemma EliminateFlag(f: Func, ls: seq<Label>)
    requires Valid(f)
    ensures EliminateChanges(f, ls) <==> exists l :: l in ls && FixedCondition(f, l)
  {
    EliminateChangesAny(f, ls);
    forall l ensures FixedCondition(f, l) <==> ConstantBranch(f, l) {
      FixedIsConstant(f, l);
    }
  }

  // ----- Blocks without predecessors --------------------------------------------------------------

  lemma RemoveDeadAtShape(f: Func, x: Label, p: Label, q: Label)
    ensures var g := RemoveDeadAt(f, x);
      && g.entry == f.entry && (p in g.blocks <==> p in f.blocks && !(Dead(f, x) && p == x))
      && Edges(g, p, q) == if Dead(f, x) && p == x then 0 else Edges(f, p, q)
  {
    if Dead(f, x) {
      var succs := f.blocks[x].term.succs;
      DropSuccessorsKeys(f, x, succs);
      DropSuccessorsTerm(f, x, succs, p, q);
      RemoveBlockEdges(DropSuccessors(f, x, succs), x, p, q);
    }
  }

  lemma StaysDead(f: Func, x: Label, l: Label)
    requires Dead(f, l) && x != l
    ensures Dead(RemoveDeadAt(f, x), l)
  {
    RemoveDeadAtShape(f, x, l, l);
    forall p ensures Edges(RemoveDeadAt(f, x), p, l) == 0 {
      RemoveDeadAtShape(f, x, p, l);
    }
  }

  lemma {:induction false} StaysAway(f: Func, ls: seq<Label>, l: Label)
    requires l !in f.blocks
    ensures l !in RemoveDead(f, ls).blocks
    decreases |ls|
  {
    if ls != [] {
      RemoveDeadAtShape(f, ls[0], l, l);
      StaysAway(RemoveDeadAt(f, ls[0]), ls[1..], l);
    }
  }

  lemma {:induction false} DeadGoes(f: Func, ls: seq<Label>, l: Label)
    requires Dead(f, l) && l in ls
    ensures l !in RemoveDead(f, ls).blocks
    decreases |ls|
  {
    if ls[0] == l {
      RemoveDeadAtShape(f, l, l, l);
      StaysAway(RemoveDeadAt(f, l), ls[1..], l);
    } else {
      StaysDead(f, ls[0], l);
      DeadGoes(RemoveDeadAt(f, ls[0]), ls[1..], l);
    }
  }

  /** Told from terminators alone: no block leads to l, and it is not the entry. */
  ghost predicate Unentered(f: Func, l: Label) {
    l in f.blocks && l != f.entry && forall p :: p in f.blocks ==> l !in f.blocks[p].term.succs
  }

  lemma DeadIsUnentered(f: Func, l: Label)
    ensures Dead(f, l) <==> Unentered(f, l)
  {
    forall p ensures p in f.blocks ==> (Edges(f, p, l) > 0 <==> l in f.blocks[p].term.succs) {
      if p in f.blocks {
        CountIn(f.blocks[p].term.succs, l);
      }
    }
  }

  /** Every visited block that nothing leads to is gone. */
  lemma RemoveDeadRemoves(f: Func, ls: seq<Label>, l: Label)
    requires Unentered(f, l) && l in ls
    ensures l !in RemoveDead(f, ls).blocks
  {
    DeadIsUnentered(f, l);
    DeadGoes(f, ls, l);
  }

  lemma PathSurvives(f: Func, x: Label, p: seq<Label>)
    requires Path(f, p)
    ensures Path(RemoveDeadAt(f, x), p)
  {
    RemoveDeadAtShape(f, x, f.entry, f.entry);
    forall k | 0 < k < |p| ensures Edges(RemoveDeadAt(f, x), p[k - 1], p[k]) > 0 && p[k] in RemoveDeadAt(f, x).blocks {
      assert Edges(f, p[k - 1], p[k]) > 0;
      assert p[k - 1] in f.blocks && (k > 1 ==> Edges(f, p[k - 2], p[k - 1]) > 0);
      RemoveDeadAtShape(f, x, p[k - 1], p[k]);
      RemoveDeadAtShape(f, x, p[k], p[k]);
    }
  }

  /** Every block that control can reach is still there, and can still be reached. */
  lemma {:induction false} RemoveDeadKeeps(f: Func, ls: seq<Label>, l: Label)
    requires Reachable(f, l)
    ensures Reachable(RemoveDead(f, ls), l) && l in RemoveDead(f, ls).blocks
    decreases |ls|
  {
    if ls != [] {
      var p :| Path(f, p) && p[|p| - 1] == l;
      PathSurvives(f, ls[0], p);
      RemoveDeadKeeps(RemoveDeadAt(f, ls[0]), ls[1..], l);
    }
  }

  lemma {:induction false} RemoveDeadChangesAny(f: Func, ls: seq<Label>)
    ensures RemoveDeadChanges(f, ls) <==> exists l :: l in ls && Dead(f, l)
    decreases |ls|
  {
    if ls != [] && !Dead(f, ls[0]) {
      RemoveDeadChangesAny(f, ls[1..]);
      assert forall l :: l in ls <==> l == ls[0] || l in ls[1..];
    }
  }

  lemma RemoveDeadFlag(f: Func, ls: seq<Label>)
    ensures RemoveDeadChanges(f, ls) <==> exists l :: l in ls && Unentered(f, l)
  {
    RemoveDeadChangesAny(f, ls);
    forall l ensures Dead(f, l) <==> Unentered(f, l) {
      DeadIsUnentered(f, l);
    }
  }
}
