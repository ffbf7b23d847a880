/** Valid functions, all of their blocks reachable, on which the passes meet the assertion. */
module CfgCounterexamples {
  import opened Wrappers
  import opened SsaFunction
  import opened SsaRewrite
  import opened SsaRuns
  import opened SsaDead
  import opened SsaEdges
  import opened SsaForward
  import opened SsaSplice
  import opened CfgPasses
  import opened CfgAsserts
  import opened CfgFixpoint
  import opened CfgLasting
  import opened CfgOrder
  import opened SimplifyCfg

  // ----- Edges of small functions --------------------------------------------------------------------

  lemma CountTwo(a: Label, b: Label, q: Label)
    ensures Count([a, b], q) == (if a == q then 1 else 0) + (if b == q then 1 else 0)
  {
    assert [a, b][1..] == [b];
    OneEdge(b, q);
  }

  /** The edges of a block with at most two successors. */
  lemma EdgesOf(f: Func, p: Label, q: Label)
    requires p in f.blocks ==> |f.blocks[p].term.succs| <= 2
    ensures Edges(f, p, q)
      == if p !in f.blocks || f.blocks[p].term.succs == [] then 0
         else if |f.blocks[p].term.succs| == 1 then (if f.blocks[p].term.succs[0] == q then 1 else 0)
         else (if f.blocks[p].term.succs[0] == q then 1 else 0) + (if f.blocks[p].term.succs[1] == q then 1 else 0)
  {
    if p in f.blocks {
      var succs := f.blocks[p].term.succs;
      if |succs| == 1 {
        assert succs == [succs[0]];
        OneEdge(succs[0], q);
      } else if |succs| == 2 {
        assert succs == [succs[0], succs[1]];
        CountTwo(succs[0], succs[1], q);
      }
    }
  }

  ghost predicate Small(f: Func) {
    forall p :: p in f.blocks ==> |f.blocks[p].term.succs| <= 2
  }

  lemma NoPredecessor(f: Func, bb: Label)
    requires forall p :: p in f.blocks ==> bb !in f.blocks[p].term.succs
    ensures MergeAt(f, bb) == Some(f)
  {
    forall p ensures !Mergeable(f, bb, p) {
      if p in f.blocks {
        CountIn(f.blocks[p].term.succs, bb);
      }
    }
  }

  /** Two blocks lead to bb, or one that also leads elsewhere. */
  lemma NotSole(f: Func, bb: Label, p: Label, q: Label)
    requires p in f.blocks && bb in f.blocks[p].term.succs && q in f.blocks && bb in f.blocks[q].term.succs
    requires p != q || f.blocks[p].term.succs != [bb]
    ensures MergeAt(f, bb) == Some(f)
  {
    CountIn(f.blocks[p].term.succs, bb);
    CountIn(f.blocks[q].term.succs, bb);
    assert Edges(f, p, bb) > 0 && Edges(f, q, bb) > 0;
    forall d ensures !Mergeable(f, bb, d) {
    }
  }

  lemma SoleIsMergeable(f: Func, bb: Label, pred: Label)
    requires Small(f) && bb in f.blocks && pred in f.blocks && pred != bb && f.blocks[pred].term.succs == [bb]
    requires forall q :: q in f.blocks && q != pred ==> bb !in f.blocks[q].term.succs
    ensures Mergeable(f, bb, pred)
  {
    forall q ensures Edges(f, q, bb) == if q == pred then 1 else 0 {
      EdgesOf(f, q, bb);
    }
  }

  /** Eliminating a branch where the block that is left out keeps all its PHI nodes. */
  lemma EliminateOne(f: Func, g: Func, x: Label, y: Label)
    requires ConstantBranch(f, x) && x != y && y == f.blocks[x].term.succs[RemovedIndex(f, x)]
    requires g.entry == f.entry && g.params == f.params && g.blocks.Keys == f.blocks.Keys
    requires forall l :: l in f.blocks && l != x && l != y ==> g.blocks[l] == f.blocks[l]
    requires g.blocks[x] == f.blocks[x].(term := Term(Jump, [f.blocks[x].term.succs[1 - RemovedIndex(f, x)]]))
    requires g.blocks[y] == f.blocks[y].(phis := DropFrom(f.blocks[y].phis, x))
    requires forall k :: 0 <= k < |g.blocks[y].phis| ==> g.blocks[y].phis[k].incoming != []
    ensures EliminateAt(f, x) == g
  {
    var i := RemovedIndex(f, x);
    var s := SetTerm(f, x, Jump, i);
    SetJump(f, x, i, s);
    DropsTo(f, s, g, x, y);
    EraseNone(g, y);
  }

  lemma DropsTo(f: Func, s: Func, g: Func, x: Label, y: Label)
    requires SameBut(f, s, x) && x != y && y in f.blocks
    requires g.entry == f.entry && g.params == f.params && g.blocks.Keys == f.blocks.Keys
    requires forall l :: l in f.blocks && l != x && l != y ==> g.blocks[l] == f.blocks[l]
    requires g.blocks[x] == s.blocks[x] && g.blocks[y] == f.blocks[y].(phis := DropFrom(f.blocks[y].phis, x))
    ensures DropEntries(s, y, x) == g
  {
    assert DropEntries(s, y, x).blocks == g.blocks;
  }

  lemma EraseNone(g: Func, y: Label)
    requires y in g.blocks && forall k :: 0 <= k < |g.blocks[y].phis| ==> g.blocks[y].phis[k].incoming != []
    ensures ErasePhis(g, y) == g
  {
    var phis := g.blocks[y].phis;
    KeepEvery(phis);
    SubNone(g.blocks, Undef);
    assert g.blocks[y := g.blocks[y].(phis := phis)] == g.blocks;
  }

  lemma StepPath(f: Func, p: seq<Label>, l: Label)
    requires Path(f, p) && l in f.blocks && p[|p| - 1] in f.blocks && l in f.blocks[p[|p| - 1]].term.succs
    ensures Path(f, p + [l]) && Reachable(f, l)
  {
    CountIn(f.blocks[p[|p| - 1]].term.succs, l);
    PathSnoc(f, p, l);
    assert (p + [l])[|p|] == l;
  }

  // ----- Two PHI nodes that carry each other ----------------------------------------------------------

  /** x can be merged into y, and y into another block; the first PHI node of each carries that of the other. */
  ghost predicate Circle(f: Func, x: Label, y: Label, z: Label) {
    && Mergeable(f, x, y) && Mergeable(f, y, z) && x != z
    && f.blocks[x].phis != [] && f.blocks[x].phis[0].incoming != []
    && f.blocks[y].phis != [] && |f.blocks[y].phis[0].incoming| == 1
    && f.blocks[x].phis[0].dst != f.blocks[y].phis[0].dst
    && f.blocks[x].phis[0].incoming[0].value == Use(f.blocks[y].phis[0].dst)
    && f.blocks[y].phis[0].incoming[0].value == Use(f.blocks[x].phis[0].dst)
  }

  /** A sweep that has not visited what l is merged into merges l. */
  lemma MergesFresh(f: Func, gone: set<Label>, l: Label, d: Label)
    requires Mergeable(f, l, d) && l !in gone && d !in gone
    ensures Merges(f, gone, l)
  {
    forall p | |p| >= 2 && p[0] == l && p[|p| - 1] == l ensures !Chain(f, gone, p) {
      if Chain(f, gone, p) {
        assert Link(f, p, 0) && Between(gone, p, 1);
        MergeableUnique(f, l, d, p[1]);
      }
    }
  }

  lemma {:induction false} PhisOfHas(f: Func, ls: seq<Label>, l: Label) returns (k: nat)
    requires l in ls && l in f.blocks && f.blocks[l].phis != []
    ensures k < |PhisOf(f, ls)| && PhisOf(f, ls)[k] == f.blocks[l].phis[0]
    decreases |ls|
  {
    if ls[0] == l {
      k := 0;
    } else {
      var j := PhisOfHas(f, ls[1..], l);
      k := j + if ls[0] in f.blocks then |f.blocks[ls[0]].phis| else 0;
    }
  }

  lemma CircleNotAcyclic(f: Func, ls: seq<Label>, x: Label, y: Label, z: Label)
    requires Circle(f, x, y, z) && x in ls && y in ls
    ensures !Acyclic(PhisOf(f, ls))
  {
    var i := PhisOfHas(f, ls, x);
    var j := PhisOfHas(f, ls, y);
    var phis := PhisOf(f, ls);
    forall rank: Reg -> nat ensures !Ranked(phis, rank) {
      assert !RankedPhi(phis, i, rank) || !RankedPhi(phis, j, rank);
    }
  }

  /** A sweep that comes to x and then to y before z asserts. */
  lemma CircleFails(f: Func, e: Label, x: Label, y: Label, z: Label, rest: seq<Label>)
    requires Valid(f) && Circle(f, x, y, z) && e !in {x, y, z}
    ensures Merge(f, [e] + ([x] + ([y] + rest))) == None
  {
    var third := [y] + rest;
    var second := [x] + third;
    var ls := [e] + second;
    assert ls[1..] == second && second[1..] == third && third[1..] == rest;
    MergesFresh(f, {} + {e}, x, y);
    MergesFresh(f, {} + {e} + {x}, y, z);
    assert y in Merged(f, {} + {e} + {x}, third) && x in Merged(f, {} + {e}, second);
    assert y in Merged(f, {} + {e}, second);
    CircleNotAcyclic(f, Merged(f, {}, ls), x, y, z);
    MergeExact(f, ls);
  }

  /** Once the PHI node of y has been replaced by its value, that of x is its own value. */
  lemma FoldedPhi(f: Func, x: Label, y: Label, z: Label)
    requires Circle(f, x, y, z)
    ensures var g := ForwardPhi(f, y);
      && x in g.blocks && g.blocks[x].phis != [] && g.blocks[x].phis[0].incoming != []
      && g.blocks[x].phis[0].incoming[0].value == Use(g.blocks[x].phis[0].dst)
  {
  }

  lemma ForwardSameEdges(f: Func, y: Label, p: Label, q: Label)
    requires y in f.blocks && f.blocks[y].phis != [] && f.blocks[y].phis[0].incoming != []
    ensures Edges(ForwardPhi(f, y), p, q) == Edges(f, p, q) && ForwardPhi(f, y).blocks.Keys == f.blocks.Keys
    ensures p in f.blocks ==> ForwardPhi(f, y).blocks[p].term.succs == f.blocks[p].term.succs
  {
    var b := f.blocks[y];
    if p in f.blocks {
      SubBlockDefs(if p == y then b.(phis := b.phis[1..]) else f.blocks[p], {b.phis[0].dst}, b.phis[0].incoming[0].value);
    }
  }

  /** So whether or not PHI nodes that are left with one value are folded, the sweep asserts. */
  lemma FoldedFails(f: Func, e: Label, x: Label, y: Label, z: Label, rest: seq<Label>)
    requires Circle(f, x, y, z) && forall p :: !Mergeable(f, e, p)
    ensures FailsFolded(f, y, [e] + ([x] + rest))
  {
    var g := ForwardPhi(f, y);
    forall p ensures !Mergeable(g, e, p) {
      ForwardMergeable(f, y, e, p);
    }
    ForwardMergeable(f, y, x, y);
    FoldedPhi(f, x, y, z);
    MergeAtIs(g, x, y);
    var ls := [e] + ([x] + rest);
    assert ls[1..][0] == x && MergeAt(g, e) == Some(g);
  }

  /** The sweep asserts, too, once the first PHI node of y has been replaced by its value. */
  ghost predicate FailsFolded(f: Func, y: Label, ls: seq<Label>) {
    y in f.blocks && f.blocks[y].phis != [] && |f.blocks[y].phis[0].incoming| == 1 && Merge(ForwardPhi(f, y), ls) == None
  }

  lemma ForwardMergeable(f: Func, y: Label, l: Label, p: Label)
    requires y in f.blocks && f.blocks[y].phis != [] && f.blocks[y].phis[0].incoming != []
    ensures Mergeable(ForwardPhi(f, y), l, p) <==> Mergeable(f, l, p)
  {
    forall q ensures Edges(ForwardPhi(f, y), q, l) == Edges(f, q, l) {
      ForwardSameEdges(f, y, q, l);
    }
    ForwardSameEdges(f, y, p, l);
  }

  // ----- A constant branch in front of a circle -------------------------------------------------------

  /** 0 branches to 1, always, or to the loop of 2, 3 and 4, where two PHI nodes hand on a value. */
  const RING: Func :=
    Func(0, {}, map[0 := Block([], [], Term(CondJump(Const(1)), [1, 2])),
                    1 := Block([], [], Term(Return(Const(0)), [])),
                    2 := Block([Phi(10, [Incoming(Const(0), 0), Incoming(Use(11), 4)])], [], Term(Jump, [3])),
                    3 := Block([Phi(11, [Incoming(Use(10), 2)])], [], Term(Jump, [4])),
                    4 := Block([], [], Term(Jump, [2]))])

  const RING_ALONE: Func :=
    Func(0, {}, map[0 := Block([], [], Term(Jump, [1])),
                    1 := Block([], [], Term(Return(Const(0)), [])),
                    2 := Block([Phi(10, [Incoming(Use(11), 4)])], [], Term(Jump, [3])),
                    3 := Block([Phi(11, [Incoming(Use(10), 2)])], [], Term(Jump, [4])),
                    4 := Block([], [], Term(Jump, [2]))])

  const RING_AVAIL: Avail := map[0 := {}, 1 := {}, 2 := {}, 3 := {10}, 4 := {10, 11}]

  const RING_ORDER: seq<Label> := [0] + ([3] + ([2] + [1, 4]))

  lemma RingDefs(l: Label)
    requires l in RING.blocks
    ensures Defs(RING.blocks[l]) == (if l == 2 then {10} else if l == 3 then {11} else {}) && Once(RING.blocks[l])
  {
    var phis := RING.blocks[l].phis;
    if phis != [] {
      assert phis[..0] == [] && PhiDefs(phis) == {phis[0].dst};
    }
  }

  lemma RingFirstPhi()
    ensures PhiOk(RING, RING_AVAIL, 2, RING.blocks[2].phis[0])
  {
    var incoming := RING.blocks[2].phis[0].incoming;
    assert incoming[1..] == [Incoming(Use(11), 4)] && incoming[1..][1..] == [];
    forall p ensures FromCount(incoming, p) == Edges(RING, p, 2) {
      EdgesOf(RING, p, 2);
      assert FromCount(incoming[1..], p) == if p == 4 then 1 else 0;
    }
    RingDefs(4);
    assert IncomingKnown(RING, RING_AVAIL, incoming[0]) && IncomingKnown(RING, RING_AVAIL, incoming[1]);
  }

  lemma RingSecondPhi()
    ensures PhiOk(RING, RING_AVAIL, 3, RING.blocks[3].phis[0])
  {
    var incoming := RING.blocks[3].phis[0].incoming;
    assert incoming[1..] == [];
    forall p ensures FromCount(incoming, p) == Edges(RING, p, 3) {
      EdgesOf(RING, p, 3);
    }
    RingDefs(2);
    assert IncomingKnown(RING, RING_AVAIL, incoming[0]);
  }

  lemma RingBlock(l: Label)
    requires l in RING.blocks
    ensures BlockOk(RING, RING_AVAIL, l)
  {
    RingDefs(l);
    var b := RING.blocks[l];
    forall k | 0 <= k < |b.term.succs| ensures EdgeOk(RING, RING_AVAIL, l, b.term.succs[k]) {
    }
    forall k | 0 <= k < |b.phis| ensures PhiOk(RING, RING_AVAIL, l, b.phis[k]) {
      RingFirstPhi();
      RingSecondPhi();
    }
  }

  lemma RingApart(l: Label, k: Label)
    requires l in RING.blocks && k in RING.blocks
    ensures Apart(RING, l, k)
  {
    RingDefs(l);
    RingDefs(k);
  }

  lemma RingBlocks()
    ensures AllOk(RING, RING_AVAIL)
  {
    forall l | l in RING.blocks ensures BlockOk(RING, RING_AVAIL, l) {
      RingBlock(l);
    }
  }

  lemma RingAllApart()
    ensures AllApart(RING) && Complete(RING)
  {
    forall l, k | l in RING.blocks && k in RING.blocks ensures Apart(RING, l, k) {
      RingApart(l, k);
    }
  }

  lemma RingValid()
    ensures Valid(RING)
  {
    RingBlocks();
    RingAllApart();
    Assemble(RING, RING_AVAIL);
  }

  lemma RingReachable()
    ensures AllReachable(RING)
  {
    FiveReachable(RING);
  }

  lemma FiveReachable(f: Func)
    requires f.entry == 0 && f.blocks.Keys == {0, 1, 2, 3, 4}
    requires 1 in f.blocks[0].term.succs && 2 in f.blocks[0].term.succs && 3 in f.blocks[2].term.succs && 4 in f.blocks[3].term.succs
    ensures AllReachable(f)
  {
    assert Path(f, [0]) && [0][0] == 0 && Reachable(f, 0);
    StepPath(f, [0], 1);
    StepPath(f, [0], 2);
    StepPath(f, [0] + [2], 3);
    StepPath(f, [0] + [2] + [3], 4);
  }

  /** The entry from outside the loop goes. */
  lemma LoopPhis(incoming: seq<Incoming>, out: Label, back: Label)
    requires incoming == [Incoming(Const(0), out), Incoming(Use(11), back)]
    ensures DropFrom([Phi(10, incoming)], out) == [Phi(10, [Incoming(Use(11), back)])]
  {
    assert RemoveFrom(incoming, out) == incoming[1..] == [Incoming(Use(11), back)];
    assert [Phi(10, incoming)][1..] == [];
  }

  lemma RingFirst()
    ensures EliminateAt(RING, 0) == RING_ALONE
  {
    LoopPhis(RING.blocks[2].phis[0].incoming, 0, 4);
    EliminateOne(RING, RING_ALONE, 0, 2);
  }

  lemma RingEliminated()
    ensures Eliminate(RING, RING_ORDER) == RING_ALONE
  {
    RingFirst();
    NothingToEliminate(RING_ALONE, RING_ORDER[1..]);
  }

  lemma RingCircle()
    ensures Circle(RING_ALONE, 3, 2, 4) && forall p :: !Mergeable(RING_ALONE, 0, p)
  {
    SoleIsMergeable(RING_ALONE, 3, 2);
    SoleIsMergeable(RING_ALONE, 2, 4);
    forall p ensures !Mergeable(RING_ALONE, 0, p) {
      EdgesOf(RING_ALONE, p, 0);
    }
  }

  lemma RingAloneFails()
    requires Valid(RING_ALONE)
    ensures Merge(RING_ALONE, RING_ORDER) == None
    ensures FailsFolded(RING_ALONE, 2, RING_ORDER)
  {
    RingCircle();
    CircleFails(RING_ALONE, 0, 3, 2, 4, [1, 4]);
    FoldedFails(RING_ALONE, 0, 3, 2, 4, [2] + [1, 4]);
  }

  /** Where the merge pass fails after another one, so do the two together. */
  lemma SecondFails(f: Func, g: Func, ls: seq<Label>, passes: seq<Pass>)
    requires |passes| >= 2 && passes[1] == SinglePredecessors && AfterPass(f, ls, passes[0]) == Some(g)
    requires Merge(g, ls) == None && forall l :: l in ls ==> l in g.blocks
    ensures AfterPasses(f, ls, passes) == None
  {
    RemainingAll(ls, g.blocks.Keys);
    assert passes[1..][0] == SinglePredecessors;
  }

  lemma RingLabels()
    ensures forall l :: l in RING_ORDER ==> l in RING_ALONE.blocks
  {
  }

  lemma RingAloneValid()
    ensures Valid(RING_ALONE)
  {
    RingValid();
    RingEliminated();
    EliminateCorrect(RING, RING_ORDER);
  }

  lemma RingPasses()
    ensures AfterPasses(RING, RING_ORDER, [CondBranches, SinglePredecessors, DeadBlocks]) == None
  {
    RingEliminated();
    RingAloneValid();
    RingAloneFails();
    RingLabels();
    SecondFails(RING, RING_ALONE, RING_ORDER, [CondBranches, SinglePredecessors, DeadBlocks]);
  }

  /** Reachability of all blocks is not enough for the passes together: eliminating the branch
      makes the loop unreachable, and then merging asserts, even if the PHI node that the
      elimination leaves with one value has been replaced by it. */
  lemma EliminatedLoopFails()
    ensures Valid(RING) && AllReachable(RING)
    ensures AfterPasses(RING, RING_ORDER, [CondBranches, SinglePredecessors, DeadBlocks]) == None
    ensures Eliminate(RING, RING_ORDER) == RING_ALONE && FailsFolded(RING_ALONE, 2, RING_ORDER)
  {
    RingValid();
    RingReachable();
    RingEliminated();
    RingAloneValid();
    RingAloneFails();
    RingPasses();
  }

  // ----- A branch that a merge makes constant ----------------------------------------------------------

  /** The PHI node of 1 is the constant 1; it decides whether to go to 2 or into the loop of 3, 4
      and 5, and then whether to stay there. */
  const CHOICE: Func :=
    Func(0, {5}, map[0 := Block([], [], Term(Jump, [1])),
                     1 := Block([Phi(20, [Incoming(Const(1), 0)])], [], Term(CondJump(Use(20)), [2, 3])),
                     2 := Block([], [], Term(Return(Const(0)), [])),
                     3 := Block([Phi(10, [Incoming(Const(0), 1), Incoming(Use(11), 5)])], [], Term(CondJump(Use(20)), [4, 2])),
                     4 := Block([Phi(11, [Incoming(Use(10), 3)])], [], Term(CondJump(Use(5)), [5, 2])),
                     5 := Block([], [], Term(Jump, [3]))])

  const CHOICE_FORWARDED: Func :=
    Func(0, {5}, map[0 := Block([], [], Term(Jump, [1])),
                     1 := Block([], [], Term(CondJump(Const(1)), [2, 3])),
                     2 := Block([], [], Term(Return(Const(0)), [])),
                     3 := Block([Phi(10, [Incoming(Const(0), 1), Incoming(Use(11), 5)])], [], Term(CondJump(Const(1)), [4, 2])),
                     4 := Block([Phi(11, [Incoming(Use(10), 3)])], [], Term(CondJump(Use(5)), [5, 2])),
                     5 := Block([], [], Term(Jump, [3]))])

  const CHOICE_MERGED: Func :=
    Func(0, {5}, map[0 := Block([], [], Term(CondJump(Const(1)), [2, 3])),
                     2 := Block([], [], Term(Return(Const(0)), [])),
                     3 := Block([Phi(10, [Incoming(Const(0), 0), Incoming(Use(11), 5)])], [], Term(CondJump(Const(1)), [4, 2])),
                     4 := Block([Phi(11, [Incoming(Use(10), 3)])], [], Term(CondJump(Use(5)), [5, 2])),
                     5 := Block([], [], Term(Jump, [3]))])

  const CHOICE_LEFT: Func :=
    Func(0, {5}, map[0 := Block([], [], Term(Jump, [2])),
                     2 := Block([], [], Term(Return(Const(0)), [])),
                     3 := Block([Phi(10, [Incoming(Use(11), 5)])], [], Term(CondJump(Const(1)), [4, 2])),
                     4 := Block([Phi(11, [Incoming(Use(10), 3)])], [], Term(CondJump(Use(5)), [5, 2])),
                     5 := Block([], [], Term(Jump, [3]))])

  const CHOICE_MADE: Func :=
    Func(0, {5}, map[0 := Block([], [], Term(Jump, [2])),
                     2 := Block([], [], Term(Return(Const(0)), [])),
                     3 := Block([Phi(10, [Incoming(Use(11), 5)])], [], Term(Jump, [4])),
                     4 := Block([Phi(11, [Incoming(Use(10), 3)])], [], Term(CondJump(Use(5)), [5, 2])),
                     5 := Block([], [], Term(Jump, [3]))])

  const CHOICE_AVAIL: Avail := map[0 := {5}, 1 := {5}, 2 := {5}, 3 := {5, 20}, 4 := {5, 20, 10}, 5 := {5, 20, 10, 11}]

  const CHOICE_ORDER: seq<Label> := [0] + ([1] + ([4] + ([3] + [2, 5])))

  const CHOICE_REST: seq<Label> := [0] + ([4] + ([3] + [2, 5]))

  lemma ChoiceDefs(l: Label)
    requires l in CHOICE.blocks
    ensures Defs(CHOICE.blocks[l]) == (if l == 1 then {20} else if l == 3 then {10} else if l == 4 then {11} else {})
    ensures Once(CHOICE.blocks[l])
  {
    var phis := CHOICE.blocks[l].phis;
    if phis != [] {
      assert phis[..0] == [] && PhiDefs(phis) == {phis[0].dst};
    }
  }

  /** A PHI node with one entry. */
  lemma ChoiceOnePhi(l: Label)
    requires l in {1, 4}
    ensures PhiOk(CHOICE, CHOICE_AVAIL, l, CHOICE.blocks[l].phis[0])
  {
    var incoming := CHOICE.blocks[l].phis[0].incoming;
    assert incoming[1..] == [];
    forall p ensures FromCount(incoming, p) == Edges(CHOICE, p, l) {
      EdgesOf(CHOICE, p, l);
    }
    ChoiceDefs(3);
    assert IncomingKnown(CHOICE, CHOICE_AVAIL, incoming[0]);
  }

  lemma ChoiceLoopPhi()
    ensures PhiOk(CHOICE, CHOICE_AVAIL, 3, CHOICE.blocks[3].phis[0])
  {
    var incoming := CHOICE.blocks[3].phis[0].incoming;
    assert incoming[1..] == [Incoming(Use(11), 5)] && incoming[1..][1..] == [];
    forall p ensures FromCount(incoming, p) == Edges(CHOICE, p, 3) {
      EdgesOf(CHOICE, p, 3);
      assert FromCount(incoming[1..], p) == if p == 5 then 1 else 0;
    }
    ChoiceDefs(5);
    assert IncomingKnown(CHOICE, CHOICE_AVAIL, incoming[0]) && IncomingKnown(CHOICE, CHOICE_AVAIL, incoming[1]);
  }

  lemma ChoiceEdge(l: Label, k: nat)
    requires l in CHOICE.blocks && k < |CHOICE.blocks[l].term.succs|
    ensures EdgeOk(CHOICE, CHOICE_AVAIL, l, CHOICE.blocks[l].term.succs[k])
  {
    ChoiceDefs(l);
  }

  lemma ChoicePhi(l: Label, k: nat)
    requires l in CHOICE.blocks && k < |CHOICE.blocks[l].phis|
    ensures PhiOk(CHOICE, CHOICE_AVAIL, l, CHOICE.blocks[l].phis[k])
  {
    if l == 3 {
      ChoiceLoopPhi();
    } else {
      ChoiceOnePhi(l);
    }
  }

  lemma ChoiceBlock(l: Label)
    requires l in CHOICE.blocks
    ensures BlockOk(CHOICE, CHOICE_AVAIL, l)
  {
    ChoiceDefs(l);
    var b := CHOICE.blocks[l];
    forall k | 0 <= k < |b.term.succs| ensures EdgeOk(CHOICE, CHOICE_AVAIL, l, b.term.succs[k]) {
      ChoiceEdge(l, k);
    }
    forall k | 0 <= k < |b.phis| ensures PhiOk(CHOICE, CHOICE_AVAIL, l, b.phis[k]) {
      ChoicePhi(l, k);
    }
  }

  lemma ChoiceApart(l: Label, k: Label)
    requires l in CHOICE.blocks && k in CHOICE.blocks
    ensures Apart(CHOICE, l, k)
  {
    ChoiceDefs(l);
    ChoiceDefs(k);
  }

  lemma ChoiceBlocks()
    ensures AllOk(CHOICE, CHOICE_AVAIL)
  {
    forall l | l in CHOICE.blocks ensures BlockOk(CHOICE, CHOICE_AVAIL, l) {
      ChoiceBlock(l);
    }
  }

  lemma ChoiceAllApart()
    ensures AllApart(CHOICE) && Complete(CHOICE)
  {
    forall l, k | l in CHOICE.blocks && k in CHOICE.blocks ensures Apart(CHOICE, l, k) {
      ChoiceApart(l, k);
    }
  }

  lemma ChoiceValid()
    ensures Valid(CHOICE)
  {
    ChoiceBlocks();
    ChoiceAllApart();
    Assemble(CHOICE, CHOICE_AVAIL);
  }

  lemma ChoiceReachable()
    ensures AllReachable(CHOICE)
  {
    SixReachable(CHOICE);
  }

  lemma SixReachable(f: Func)
    requires f.entry == 0 && f.blocks.Keys == {0, 1, 2, 3, 4, 5}
    requires 1 in f.blocks[0].term.succs && 2 in f.blocks[1].term.succs && 3 in f.blocks[1].term.succs
    requires 4 in f.blocks[3].term.succs && 5 in f.blocks[4].term.succs
    ensures AllReachable(f)
  {
    assert Path(f, [0]) && [0][0] == 0 && Reachable(f, 0);
    StepPath(f, [0], 1);
    StepPath(f, [0] + [1], 2);
    StepPath(f, [0] + [1], 3);
    StepPath(f, [0] + [1] + [3], 4);
    StepPath(f, [0] + [1] + [3] + [4], 5);
  }

  lemma ChoiceForwardedBlock(l: Label)
    requires l in CHOICE.blocks
    ensures var b := CHOICE.blocks[l];
      CHOICE_FORWARDED.blocks[l] == SubBlock(if l == 1 then b.(phis := b.phis[1..]) else b, {20}, Const(1))
  {
    if l == 3 || l == 4 {
      SubNoUse(CHOICE.blocks[l].phis, 20, Const(1));
    }
  }

  /** Replacing a register that a PHI node does not read. */
  lemma SubNoUse(phis: seq<Phi>, r: Reg, v: Value)
    requires |phis| == 1 && forall k :: 0 <= k < |phis[0].incoming| ==> phis[0].incoming[k].value != Use(r)
    ensures SubPhis(phis, {r}, v) == phis
  {
    assert SubIncoming(phis[0].incoming, {r}, v) == phis[0].incoming;
  }

  lemma ForwardIs(f: Func, g: Func, bb: Label)
    requires bb in f.blocks && f.blocks[bb].phis != [] && f.blocks[bb].phis[0].incoming != []
    requires g.entry == f.entry && g.params == f.params && g.blocks.Keys == f.blocks.Keys
    requires forall l :: l in f.blocks ==> var b := f.blocks[l];
      g.blocks[l] == SubBlock(if l == bb then b.(phis := b.phis[1..]) else b, {f.blocks[bb].phis[0].dst}, f.blocks[bb].phis[0].incoming[0].value)
    ensures ForwardPhi(f, bb) == g
  {
    assert ForwardPhi(f, bb).blocks == g.blocks;
  }

  lemma ChoiceForwarded()
    ensures ForwardPhi(CHOICE, 1) == CHOICE_FORWARDED
  {
    forall l | l in CHOICE.blocks
      ensures var b := CHOICE.blocks[l];
        CHOICE_FORWARDED.blocks[l] == SubBlock(if l == 1 then b.(phis := b.phis[1..]) else b, {20}, Const(1)) {
      ChoiceForwardedBlock(l);
    }
    ForwardIs(CHOICE, CHOICE_FORWARDED, 1);
  }

  lemma ChoiceSplicedPhis(three: seq<Phi>, four: seq<Phi>)
    requires three == [Phi(10, [Incoming(Const(0), 1), Incoming(Use(11), 5)])] && four == [Phi(11, [Incoming(Use(10), 3)])]
    ensures RenamePhis(three, 1, 0) == [Phi(10, [Incoming(Const(0), 0), Incoming(Use(11), 5)])] && RenamePhis(four, 1, 0) == four
  {
    assert RenameIncoming(three[0].incoming, 1, 0) == [Incoming(Const(0), 0), Incoming(Use(11), 5)];
    assert RenameIncoming(four[0].incoming, 1, 0) == four[0].incoming;
  }

  lemma SpliceIs(f: Func, g: Func, bb: Label, pred: Label)
    requires bb in f.blocks && pred in f.blocks && pred != bb
    requires g.entry == f.entry && g.params == f.params && g.blocks.Keys == f.blocks.Keys - {bb}
    requires forall l :: l in g.blocks && l != pred ==> g.blocks[l] == f.blocks[l].(phis := RenamePhis(f.blocks[l].phis, bb, pred))
    requires g.blocks[pred] == Joined(f, bb, pred).(phis := RenamePhis(f.blocks[pred].phis, bb, pred))
    ensures Splice(f, bb, pred) == g
  {
    assert Splice(f, bb, pred).blocks == g.blocks;
  }

  lemma ChoiceSpliced()
    ensures Splice(CHOICE_FORWARDED, 1, 0) == CHOICE_MERGED
  {
    ChoiceSplicedPhis(CHOICE_FORWARDED.blocks[3].phis, CHOICE_FORWARDED.blocks[4].phis);
    SpliceIs(CHOICE_FORWARDED, CHOICE_MERGED, 1, 0);
  }

  lemma ChoiceMergedAt()
    ensures MergeAt(CHOICE, 0) == Some(CHOICE) && MergeAt(CHOICE, 1) == Some(CHOICE_MERGED)
  {
    NoPredecessor(CHOICE, 0);
    SoleIsMergeable(CHOICE, 1, 0);
    ChoiceForwarded();
    ChoiceSpliced();
    OneForward(CHOICE, CHOICE_FORWARDED, CHOICE_MERGED, 1, 0);
  }

  /** A merge that replaces one PHI node. */
  lemma OneForward(f: Func, h: Func, g: Func, bb: Label, pred: Label)
    requires Mergeable(f, bb, pred) && f.blocks[bb].phis != [] && f.blocks[bb].phis[0].incoming != []
    requires f.blocks[bb].phis[0].incoming[0].value != Use(f.blocks[bb].phis[0].dst) && ForwardPhi(f, bb) == h
    requires bb in h.blocks && pred in h.blocks && h.blocks[bb].phis == [] && Splice(h, bb, pred) == g
    ensures MergeAt(f, bb) == Some(g)
  {
    MergeAtIs(f, bb, pred);
    assert ForwardAll(h, bb) == Some(h);
  }

  lemma ChoiceOthers()
    ensures MergeAt(CHOICE_MERGED, 2) == Some(CHOICE_MERGED) && MergeAt(CHOICE_MERGED, 3) == Some(CHOICE_MERGED)
    ensures MergeAt(CHOICE_MERGED, 4) == Some(CHOICE_MERGED) && MergeAt(CHOICE_MERGED, 5) == Some(CHOICE_MERGED)
  {
    NotSole(CHOICE_MERGED, 2, 0, 3);
    NotSole(CHOICE_MERGED, 3, 0, 5);
    NotSole(CHOICE_MERGED, 4, 3, 3);
    NotSole(CHOICE_MERGED, 5, 4, 4);
  }

  lemma MergeStays(f: Func, ls: seq<Label>)
    requires forall l :: l in ls ==> MergeAt(f, l) == Some(f)
    ensures Merge(f, ls) == Some(f)
    decreases |ls|
  {
    if ls != [] {
      MergeStays(f, ls[1..]);
    }
  }

  lemma MergeSecond(f: Func, g: Func, e: Label, l: Label, rest: seq<Label>)
    requires MergeAt(f, e) == Some(f) && MergeAt(f, l) == Some(g) && forall k :: k in rest ==> MergeAt(g, k) == Some(g)
    ensures Merge(f, [e] + ([l] + rest)) == Some(g)
  {
    var tail := [l] + rest;
    assert ([e] + tail)[1..] == tail && tail[1..] == rest;
    MergeStays(g, rest);
  }

  lemma ChoiceMerged()
    ensures Merge(CHOICE, CHOICE_ORDER) == Some(CHOICE_MERGED)
  {
    ChoiceMergedAt();
    ChoiceOthers();
    MergeSecond(CHOICE, CHOICE_MERGED, 0, 1, [4] + ([3] + [2, 5]));
  }

  lemma ChoiceLeft()
    ensures EliminateAt(CHOICE_MERGED, 0) == CHOICE_LEFT
  {
    var phis := CHOICE_MERGED.blocks[3].phis;
    LoopPhis(phis[0].incoming, 0, 5);
    assert phis == [Phi(10, phis[0].incoming)];
    EliminateOne(CHOICE_MERGED, CHOICE_LEFT, 0, 3);
  }

  lemma ChoiceMadeAt()
    ensures EliminateAt(CHOICE_LEFT, 3) == CHOICE_MADE
  {
    EliminateOne(CHOICE_LEFT, CHOICE_MADE, 3, 2);
  }

  /** Two branches are constant, at the first and the third block. */
  lemma EliminateTwo(f: Func, g: Func, h: Func, e: Label, x: Label, y: Label, rest: seq<Label>)
    requires EliminateAt(f, e) == g && !ConstantBranch(g, x) && EliminateAt(g, y) == h
    requires forall l :: l in rest ==> !ConstantBranch(h, l)
    ensures Eliminate(f, [e] + ([x] + ([y] + rest))) == h
  {
    var third := [y] + rest;
    var second := [x] + third;
    assert ([e] + second)[1..] == second && second[1..] == third && third[1..] == rest;
    NothingToEliminate(h, rest);
    assert Eliminate(g, third) == h && EliminateAt(g, x) == g;
    assert Eliminate(g, second) == h;
  }

  lemma ChoiceSettled(rest: seq<Label>)
    requires rest == [2, 5]
    ensures !ConstantBranch(CHOICE_LEFT, 4) && forall l :: l in rest ==> !ConstantBranch(CHOICE_MADE, l)
  {
  }

  lemma ChoiceMade()
    ensures Eliminate(CHOICE_MERGED, CHOICE_REST) == CHOICE_MADE
  {
    ChoiceLeft();
    ChoiceMadeAt();
    ChoiceSettled([2, 5]);
    EliminateTwo(CHOICE_MERGED, CHOICE_LEFT, CHOICE_MADE, 0, 4, 3, [2, 5]);
  }

  lemma ChoiceCircle()
    ensures Circle(CHOICE_MADE, 4, 3, 5) && forall p :: !Mergeable(CHOICE_MADE, 0, p)
  {
    SoleIsMergeable(CHOICE_MADE, 4, 3);
    SoleIsMergeable(CHOICE_MADE, 3, 5);
    forall p ensures !Mergeable(CHOICE_MADE, 0, p) {
      EdgesOf(CHOICE_MADE, p, 0);
    }
  }

  lemma ChoiceMadeFails()
    requires Valid(CHOICE_MADE)
    ensures Merge(CHOICE_MADE, CHOICE_REST) == None
    ensures FailsFolded(CHOICE_MADE, 3, CHOICE_REST)
  {
    ChoiceCircle();
    CircleFails(CHOICE_MADE, 0, 4, 3, 5, [2, 5]);
    FoldedFails(CHOICE_MADE, 0, 4, 3, 5, [3] + [2, 5]);
  }

  lemma RemainingSkips(a: Label, b: Label, rest: seq<Label>, keep: set<Label>)
    requires a in keep && b !in keep && forall l :: l in rest ==> l in keep
    ensures Remaining([a] + ([b] + rest), keep) == [a] + rest
  {
    RemainingAll(rest, keep);
    RemainingCons(b, rest, keep);
    RemainingCons(a, [b] + rest, keep);
  }

  lemma RemainingCons(l: Label, rest: seq<Label>, keep: set<Label>)
    ensures Remaining([l] + rest, keep) == if l in keep then [l] + Remaining(rest, keep) else Remaining(rest, keep)
  {
    assert ([l] + rest)[1..] == rest;
  }

  lemma ThenFails(f: Func, g: Func, ls: seq<Label>, rest: seq<Label>, pass: Pass, passes: seq<Pass>)
    requires AfterPass(f, ls, pass) == Some(g) && Remaining(ls, g.blocks.Keys) == rest && AfterPasses(g, rest, passes) == None
    ensures AfterPasses(f, ls, [pass] + passes) == None
  {
    PassesCons(f, ls, pass, passes, g);
  }

  /** The three passes on any functions that are like those. */
  lemma ThreePassesFail(f: Func, g: Func, h: Func)
    requires Merge(f, CHOICE_ORDER) == Some(g) && g.blocks.Keys == {0, 2, 3, 4, 5}
    requires Eliminate(g, CHOICE_REST) == h && h.blocks.Keys == {0, 2, 3, 4, 5} && Merge(h, CHOICE_REST) == None
    ensures AfterPasses(f, CHOICE_ORDER, [SinglePredecessors] + [CondBranches, SinglePredecessors]) == None
  {
    RemainingSkips(0, 1, [4] + ([3] + [2, 5]), g.blocks.Keys);
    SecondFails(g, h, CHOICE_REST, [CondBranches, SinglePredecessors]);
    ThenFails(f, g, CHOICE_ORDER, CHOICE_REST, SinglePredecessors, [CondBranches, SinglePredecessors]);
  }

  lemma ChoiceKeys()
    ensures CHOICE_MERGED.blocks.Keys == {0, 2, 3, 4, 5} && CHOICE_MADE.blocks.Keys == {0, 2, 3, 4, 5}
  {
  }

  lemma ChoiceMadeValid()
    ensures Valid(CHOICE_MADE)
  {
    ChoiceValid();
    ChoiceMerged();
    ChoiceMade();
    MergeCorrect(CHOICE, CHOICE_ORDER);
    EliminateCorrect(CHOICE_MERGED, CHOICE_REST);
  }

  lemma ChoicePasses()
    ensures AfterPasses(CHOICE, CHOICE_ORDER, [SinglePredecessors] + [CondBranches, SinglePredecessors]) == None
    ensures FailsFolded(CHOICE_MADE, 3, CHOICE_REST)
  {
    ChoiceMerged();
    ChoiceMade();
    ChoiceMadeValid();
    ChoiceMadeFails();
    ChoiceKeys();
    ThreePassesFail(CHOICE, CHOICE_MERGED, CHOICE_MADE);
  }

  lemma ChoiceNotConstant(l: Label)
    ensures !ConstantBranch(CHOICE, l)
  {
  }

  lemma ChoiceAllLive(ls: seq<Label>)
    ensures AllLive(CHOICE, ls)
  {
    ChoiceReachable();
    forall l | l in ls ensures !ConstantBranch(CHOICE, l) {
      ChoiceNotConstant(l);
    }
    ReachableLive(CHOICE, ls);
  }

  /** With the merge pass twice, reachability over the edges that no constant branch discards is
      not enough: the first merge makes branches constant, and then the second one asserts, even
      if the PHI node that the elimination leaves with one value has been replaced by it. */
  lemma MergeMakesConstant()
    ensures Valid(CHOICE) && AllLive(CHOICE, CHOICE_ORDER)
    ensures AfterPasses(CHOICE, CHOICE_ORDER, [SinglePredecessors] + [CondBranches, SinglePredecessors]) == None
    ensures Merge(CHOICE, CHOICE_ORDER) == Some(CHOICE_MERGED) && Eliminate(CHOICE_MERGED, CHOICE_REST) == CHOICE_MADE
    ensures FailsFolded(CHOICE_MADE, 3, CHOICE_REST)
  {
    ChoiceValid();
    ChoiceAllLive(CHOICE_ORDER);
    ChoicePasses();
    ChoiceMerged();
    ChoiceMade();
  }
}
