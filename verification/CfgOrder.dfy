/** The three simplifications in any order: what they keep, what the flag they return means,
    and exactly when merging two blocks can be done at all. */
module CfgOrder {
  import opened Wrappers
  import opened SsaFunction
  import opened SsaRewrite
  import opened SsaEdges
  import opened SsaForward
  import opened SsaSplice
  import opened CfgPasses
  import opened CfgUpdates
  import opened SimplifyCfg

  // ----- Any order ------------------------------------------------------------------------------

  /** Any number of simplifications in any order: each promises the same. */
  lemma {:induction false} PassesCorrect(f: Func, ls: seq<Label>, passes: seq<Pass>)
    requires Valid(f)
    ensures AfterPasses(f, ls, passes).Some? ==> Simplifies(f, AfterPasses(f, ls, passes).value)
    decreases |passes|
  {
    if passes == [] {
      SimplifiesRefl(f);
    } else if AfterPass(f, ls, passes[0]).Some? {
      var g := AfterPass(f, ls, passes[0]).value;
      PassCorrect(f, ls, passes[0]);
      PassesCorrect(g, Remaining(ls, g.blocks.Keys), passes[1..]);
      if AfterPasses(f, ls, passes).Some? {
        SimplifiesTrans(f, g, AfterPasses(f, ls, passes).value);
      }
    }
  }

  lemma PassCorrect(f: Func, ls: seq<Label>, pass: Pass)
    requires Valid(f)
    ensures AfterPass(f, ls, pass).Some? ==> Simplifies(f, AfterPass(f, ls, pass).value)
  {
    match pass
    case CondBranches => EliminateCorrect(f, ls);
    case SinglePredecessors => MergeCorrect(f, ls);
    case DeadBlocks => RemoveDeadCorrect(f, ls);
  }

  lemma PassUpdates(f: Func, ls: seq<Label>, pass: Pass)
    requires Valid(f) && AfterPass(f, ls, pass).Some?
    ensures CfgEdges(AfterPass(f, ls, pass).value) == Replay(CfgEdges(f), PassLog(f, ls, pass))
  {
    match pass
    case CondBranches => EliminateUpdates(f, ls);
    case SinglePredecessors => MergeUpdates(f, ls);
    case DeadBlocks => RemoveDeadUpdates(f, ls);
  }

  /** The logs of all passes, one after the other, lead from the old edges to the new ones. */
  lemma {:induction false} PassesUpdates(f: Func, ls: seq<Label>, passes: seq<Pass>)
    requires Valid(f) && AfterPasses(f, ls, passes).Some?
    ensures CfgEdges(AfterPasses(f, ls, passes).value) == Replay(CfgEdges(f), PassesLog(f, ls, passes))
    decreases |passes|
  {
    if passes != [] {
      var g := AfterPass(f, ls, passes[0]).value;
      PassCorrect(f, ls, passes[0]);
      PassUpdates(f, ls, passes[0]);
      PassesUpdates(g, Remaining(ls, g.blocks.Keys), passes[1..]);
      ReplayApp(CfgEdges(f), PassLog(f, ls, passes[0]), PassesLog(g, Remaining(ls, g.blocks.Keys), passes[1..]));
    }
  }

  // ----- When two blocks can be merged -----------------------------------------------------------------

  /** The values of the PHI nodes, each read through its only edge, do not go round in a circle. */
  ghost predicate Ranked(phis: seq<Phi>, rank: Reg -> nat) {
    forall k {:trigger RankedPhi(phis, k, rank)} :: 0 <= k < |phis| ==> RankedPhi(phis, k, rank)
  }

  ghost predicate RankedPhi(phis: seq<Phi>, k: nat, rank: Reg -> nat)
    requires k < |phis|
  {
    && phis[k].incoming != []
    && forall j :: 0 <= j < |phis| && phis[k].incoming[0].value == Use(phis[j].dst) ==> rank(phis[j].dst) < rank(phis[k].dst)
  }

  ghost predicate Acyclic(phis: seq<Phi>) {
    exists rank: Reg -> nat :: Ranked(phis, rank)
  }

  lemma RankedRest(phis: seq<Phi>, rank: Reg -> nat)
    requires phis != [] && Ranked(phis, rank)
    ensures phis[0].incoming != [] && phis[0].incoming[0].value != Use(phis[0].dst)
    ensures Ranked(SubPhis(phis[1..], {phis[0].dst}, phis[0].incoming[0].value), rank)
  {
    assert RankedPhi(phis, 0, rank);
    var rest := SubPhis(phis[1..], {phis[0].dst}, phis[0].incoming[0].value);
    forall k | 0 <= k < |rest| ensures RankedPhi(rest, k, rank) {
      assert RankedPhi(phis, k + 1, rank);
      forall j | 0 <= j < |rest| && rest[k].incoming[0].value == Use(rest[j].dst) ensures rank(rest[j].dst) < rank(rest[k].dst) {
        assert rest[j].dst == phis[j + 1].dst && rest[k].dst == phis[k + 1].dst;
      }
    }
  }

  /** A rank for all PHI nodes from one for the rest. */
  lemma RankFirst(phis: seq<Phi>, rank: Reg -> nat) returns (rank': Reg -> nat)
    requires phis != [] && phis[0].incoming != [] && phis[0].incoming[0].value != Use(phis[0].dst)
    requires forall k :: 0 < k < |phis| ==> phis[k].dst != phis[0].dst
    requires forall k :: 0 <= k < |phis| ==> phis[k].incoming != []
    requires Ranked(SubPhis(phis[1..], {phis[0].dst}, phis[0].incoming[0].value), rank)
    ensures Ranked(phis, rank')
  {
    var v, p := phis[0].incoming[0].value, phis[0].dst;
    var rest := SubPhis(phis[1..], {p}, v);
    rank' := (r: Reg) => if r == p then (if v.Use? && (exists k :: 0 <= k < |rest| && rest[k].dst == v.r) then 2 * rank(v.r) + 3 else 0)
                         else 2 * rank(r) + 2;
    forall k | 0 <= k < |phis| ensures RankedPhi(phis, k, rank') {
      forall j | 0 <= j < |phis| && phis[k].incoming[0].value == Use(phis[j].dst) ensures rank'(phis[j].dst) < rank'(phis[k].dst) {
        if k == 0 {
          assert j > 0 && rest[j - 1].dst == v.r;
        } else {
          assert RankedPhi(rest, k - 1, rank) && rest[k - 1].dst == phis[k].dst;
          if j > 0 {
            assert rest[k - 1].incoming[0].value == Use(rest[j - 1].dst);
          } else if v.Use? && exists i :: 0 <= i < |rest| && rest[i].dst == v.r {
            var i :| 0 <= i < |rest| && rest[i].dst == v.r;
            assert rest[k - 1].incoming[0].value == Use(rest[i].dst);
          }
        }
      }
    }
  }

  lemma {:induction false} OncePhisFirst(phis: seq<Phi>)
    requires OncePhis(phis)
    ensures forall k :: 0 < k < |phis| ==> phis[k].dst != phis[0].dst
    decreases |phis|
  {
    if |phis| > 1 {
      var last := |phis| - 1;
      OncePhisFirst(phis[..last]);
      PhiDefsFirst(phis[..last]);
    }
  }

  lemma EachIncoming(f: Func, av: Avail, bb: Label, pred: Label)
    requires Wf(f, av) && SoleEdge(f, bb, pred)
    ensures forall k :: 0 <= k < |f.blocks[bb].phis| ==> f.blocks[bb].phis[k].incoming != []
  {
    forall k | 0 <= k < |f.blocks[bb].phis| ensures f.blocks[bb].phis[k].incoming != [] {
      assert BlockOk(f, av, bb) && PhiOk(f, av, bb, f.blocks[bb].phis[k]);
      assert FromCount(f.blocks[bb].phis[k].incoming, pred) == Edges(f, pred, bb) == 1;
    }
  }

  /** The PHI nodes can all be replaced exactly when their values do not go round in a circle. */
  lemma {:induction false} ForwardAllExact(f: Func, av: Avail, bb: Label, pred: Label)
    requires Wf(f, av) && SoleEdge(f, bb, pred)
    ensures ForwardAll(f, bb).Some? <==> Acyclic(f.blocks[bb].phis)
    decreases |f.blocks[bb].phis|
  {
    var phis := f.blocks[bb].phis;
    EachIncoming(f, av, bb, pred);
    if phis == [] {
      assert Ranked(phis, (r: Reg) => 0);
    } else if phis[0].incoming[0].value == Use(phis[0].dst) {
      forall rank: Reg -> nat ensures !Ranked(phis, rank) {
        assert Ranked(phis, rank) ==> RankedPhi(phis, 0, rank);
      }
    } else {
      FirstCopies(f, av, bb, pred);
      var x := phis[0].incoming[0].value;
      var g := ForwardPhi(f, bb);
      ForwardKeeps(f, av, bb, pred);
      ForwardWf(f, av, bb, pred, phis[0].dst, x);
      ForwardAllExact(g, Forwarded(av, bb, phis[0].dst, x), bb, pred);
      assert g.blocks[bb].phis == SubPhis(phis[1..], {phis[0].dst}, x);
      if rank: Reg -> nat :| Ranked(phis, rank) {
        RankedRest(phis, rank);
      }
      if rank: Reg -> nat :| Ranked(g.blocks[bb].phis, rank) {
        assert BlockOk(f, av, bb);
        OncePhisFirst(phis);
        var rank' := RankFirst(phis, rank);
      }
    }
  }

  /** Merging bb into its predecessor works exactly when the values of its PHI nodes do not
      go round in a circle; otherwise a value would have to be replaced by itself. */
  lemma MergeIntoExact(f: Func, bb: Label, pred: Label)
    requires Valid(f) && Mergeable(f, bb, pred)
    ensures MergeInto(f, bb, pred).Some? <==> Acyclic(f.blocks[bb].phis)
  {
    var av :| Wf(f, av);
    MergeableSole(f, bb, pred);
    ForwardAllExact(f, av, bb, pred);
    var av1 := ForwardAllCorrect(f, av, bb, pred);
  }

  // ----- What does not hold -------------------------------------------------------------------------------

  /** Two blocks that only lead to each other, and a PHI node that only carries itself. */
  const CIRCULAR: Func :=
    Func(0, {}, map[0 := Block([], [], Term(Return(Const(0)), [])),
                    1 := Block([Phi(10, [Incoming(Use(10), 2)])], [], Term(Jump, [2])),
                    2 := Block([], [], Term(Jump, [1]))])

  lemma OneEdge(l: Label, q: Label)
    ensures Count([l], q) == if l == q then 1 else 0
  {
    assert [l][1..] == [] && Count([], q) == 0;
  }

  lemma CircularEdges(p: Label, q: Label)
    ensures Edges(CIRCULAR, p, q) == if (p == 1 && q == 2) || (p == 2 && q == 1) then 1 else 0
  {
    if p in {1, 2} {
      var succs := CIRCULAR.blocks[p].term.succs;
      assert succs == [3 - p];
      OneEdge(3 - p, q);
    }
  }

  lemma CircularValid()
    ensures Valid(CIRCULAR)
  {
    CircularBlocks();
    CircularApart();
    Assemble(CIRCULAR, CIRCULAR_AVAIL);
  }

  ghost predicate AllOk(f: Func, av: Avail) {
    f.entry in f.blocks && av.Keys == f.blocks.Keys && av[f.entry] == f.params
    && forall l {:trigger BlockOk(f, av, l)} :: l in f.blocks ==> BlockOk(f, av, l)
  }

  ghost predicate AllApart(f: Func) {
    forall l, k {:trigger Apart(f, l, k)} :: l in f.blocks && k in f.blocks ==> Apart(f, l, k)
  }

  lemma Assemble(f: Func, av: Avail)
    requires AllOk(f, av) && AllApart(f) && Complete(f)
    ensures Valid(f)
  {
    assert Wf(f, av);
  }

  lemma CircularBlocks()
    ensures AllOk(CIRCULAR, CIRCULAR_AVAIL)
  {
    forall l | l in CIRCULAR.blocks ensures BlockOk(CIRCULAR, CIRCULAR_AVAIL, l) {
      CircularBlock(l);
    }
  }

  lemma CircularApart()
    ensures AllApart(CIRCULAR) && Complete(CIRCULAR)
  {
    forall l, k | l in CIRCULAR.blocks && k in CIRCULAR.blocks ensures Apart(CIRCULAR, l, k) {
    }
  }

  lemma CircularBlock(l: Label)
    requires l in CIRCULAR.blocks
    ensures BlockOk(CIRCULAR, CIRCULAR_AVAIL, l)
  {
    CircularDefs();
    var b := CIRCULAR.blocks[l];
    forall k | 0 <= k < |b.term.succs| ensures EdgeOk(CIRCULAR, CIRCULAR_AVAIL, l, b.term.succs[k]) {
    }
    forall k | 0 <= k < |b.phis| ensures PhiOk(CIRCULAR, CIRCULAR_AVAIL, l, b.phis[k]) {
      CircularPhi();
    }
  }

  const CIRCULAR_AVAIL: Avail := map[0 := {}, 1 := {}, 2 := {10}]

  lemma CircularDefs()
    ensures PhiDefs(CIRCULAR.blocks[1].phis) == {10} && Once(CIRCULAR.blocks[1])
  {
    var phis := CIRCULAR.blocks[1].phis;
    assert phis[..0] == [];
  }

  lemma CircularPhi()
    ensures PhiOk(CIRCULAR, CIRCULAR_AVAIL, 1, CIRCULAR.blocks[1].phis[0])
  {
    var incoming := CIRCULAR.blocks[1].phis[0].incoming;
    assert incoming[1..] == [];
    forall p ensures FromCount(incoming, p) == Edges(CIRCULAR, p, 1) {
      CircularEdges(p, 1);
    }
    assert IncomingKnown(CIRCULAR, CIRCULAR_AVAIL, incoming[0]);
  }

  /** In unreachable code the merge pass can run into the assertion of replaceAllUsesWith. */
  lemma MergeCanFail()
    ensures Valid(CIRCULAR) && Mergeable(CIRCULAR, 1, 2) && MergeAt(CIRCULAR, 1).None?
  {
    CircularValid();
    forall q: Label ensures Edges(CIRCULAR, q, 1) == if q == 2 then 1 else 0 {
      CircularEdges(q, 1);
    }
    MergeAtIs(CIRCULAR, 1, 2);
  }

  /** A branch on a constant with the same target both ways. */
  const BRANCHING: Func :=
    Func(0, {}, map[0 := Block([], [], Term(CondJump(Const(1)), [1, 1])),
                    1 := Block([], [], Term(Return(Const(0)), []))])

  /** The flag is not "something changed": with the passes in the order in which they are written,
      it is false here although the function has changed. */
  lemma FlagIsNotChange()
    ensures var ls, passes := [0, 1], [CondBranches, SinglePredecessors, DeadBlocks];
      && Valid(BRANCHING) && !AllFlags(BRANCHING, ls, passes)
      && AfterPasses(BRANCHING, ls, passes) != Some(BRANCHING)
  {
    BranchingValid();
    BranchingEliminated();
    BranchingMerged();
    BranchingLabels([0, 1]);
    FlagsOf(BRANCHING, JUMPING, JOINED, [0, 1]);
  }

  lemma BranchingLabels(ls: seq<Label>)
    requires ls == [0, 1]
    ensures (forall l :: l in ls ==> l in JUMPING.blocks) && JOINED.blocks.Keys == {JOINED.entry} && JOINED != BRANCHING
  {
  }

  /** Nothing is dead where two passes have left only the entry. */
  lemma FlagsOf(f: Func, g: Func, h: Func, ls: seq<Label>)
    requires Eliminate(f, ls) == g && Merge(g, ls) == Some(h) && (forall l :: l in ls ==> l in g.blocks)
    requires h.blocks.Keys == {h.entry}
    ensures var passes := [CondBranches, SinglePredecessors, DeadBlocks];
      AfterPasses(f, ls, passes) == Some(h) && !AllFlags(f, ls, passes)
  {
    assert [CondBranches, SinglePredecessors, DeadBlocks] == [CondBranches] + [SinglePredecessors, DeadBlocks];
    RemainingAll(ls, g.blocks.Keys);
    PassesCons(f, ls, CondBranches, [SinglePredecessors, DeadBlocks], g);
    assert [SinglePredecessors, DeadBlocks] == [SinglePredecessors] + [DeadBlocks];
    PassesCons(g, ls, SinglePredecessors, [DeadBlocks], h);
    var rest := Remaining(ls, h.blocks.Keys);
    OnlyEntryStays(h, rest);
    assert [DeadBlocks] == [DeadBlocks] + [];
    PassesCons(h, rest, DeadBlocks, [], h);
  }

  const JUMPING: Func := Func(0, {}, map[0 := Block([], [], Term(Jump, [1])), 1 := Block([], [], Term(Return(Const(0)), []))])

  const JOINED: Func := Func(0, {}, map[0 := Block([], [], Term(Return(Const(0)), []))])

  lemma BranchingValid()
    ensures Valid(BRANCHING)
  {
    var f := BRANCHING;
    var av: Avail := map[0 := {}, 1 := {}];
    forall l | l in f.blocks ensures BlockOk(f, av, l) {
      var b := f.blocks[l];
      forall k | 0 <= k < |b.term.succs| ensures EdgeOk(f, av, l, b.term.succs[k]) {
      }
    }
    forall l, k | l in f.blocks && k in f.blocks ensures Apart(f, l, k) {
    }
    assert AllOk(f, av);
    Assemble(f, av);
  }

  lemma BranchingEliminated()
    ensures Eliminate(BRANCHING, [0, 1]) == JUMPING
  {
    var f := BRANCHING;
    assert ConstantBranch(f, 0) && RemovedIndex(f, 0) == 1;
    var s := SetTerm(f, 0, Jump, 1);
    assert Without([1, 1], 1) == [1];
    assert s.blocks == JUMPING.blocks;
    SubNone(s.blocks, Undef);
    assert DropEntries(s, 1, 0) == s;
    assert EliminateAt(f, 0) == JUMPING && EliminateAt(JUMPING, 1) == JUMPING;
    assert [0, 1][1..] == [1] && [1][1..] == [];
  }

  lemma JumpingEdges(p: Label, q: Label)
    ensures Edges(JUMPING, p, q) == if p == 0 && q == 1 then 1 else 0
  {
    if p == 0 {
      var succs := JUMPING.blocks[p].term.succs;
      assert succs == [1];
      OneEdge(1, q);
    }
  }

  lemma BranchingMerged()
    ensures Merge(JUMPING, [0, 1]) == Some(JOINED)
  {
    var g := JUMPING;
    forall p ensures !Mergeable(g, 0, p) {
      JumpingEdges(p, 0);
    }
    forall q: Label ensures Edges(g, q, 1) == if q == 0 then 1 else 0 {
      JumpingEdges(q, 1);
    }
    assert Mergeable(g, 1, 0);
    MergeAtIs(g, 1, 0);
    assert Splice(g, 1, 0).blocks == JOINED.blocks;
    assert MergeAt(g, 0) == Some(g) && MergeAt(g, 1) == Some(JOINED);
    assert [0, 1][1..] == [1] && [1][1..] == [];
  }

  /** Where only the entry is left, no block is dead. */
  lemma {:induction false} OnlyEntryStays(f: Func, ls: seq<Label>)
    requires f.blocks.Keys == {f.entry}
    ensures RemoveDead(f, ls) == f && !RemoveDeadChanges(f, ls)
    decreases |ls|
  {
    if ls != [] {
      OnlyEntryStays(f, ls[1..]);
    }
  }
}
