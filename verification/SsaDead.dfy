/** Dismantling blocks that nothing leads to: their registers become undef wherever they
    are used, and nothing observable changes. */
module SsaDead {
  import opened Wrappers
  import opened SsaFunction
  import opened SsaRewrite
  import opened SsaRuns

  // ----- Same runs, same behaviour -----------------------------------------------------------

  ghost predicate SameRun(m: Machine, f: Func, g: Func, regs: Regs, mem: Memory, n: nat) {
    Run(m, f, n, Start(f, regs, mem)) == Run(m, g, n, Start(g, regs, mem))
  }

  lemma SameRunsEquivalent(f: Func, g: Func)
    requires f.params == g.params
    requires forall m, regs: Regs, mem, n: nat {:trigger SameRun(m, f, g, regs, mem, n)} ::
      regs.Keys == f.params ==> SameRun(m, f, g, regs, mem, n)
    ensures Equivalent(f, g)
  {
    forall m, regs: Regs, mem, n: nat | regs.Keys == f.params
      ensures ShownBy(m, f, g, regs, mem, n) && ShownBy(m, g, f, regs, mem, n)
    {
      assert SameRun(m, f, g, regs, mem, n);
      assert Shows(Run(m, f, n, Start(f, regs, mem)), Run(m, g, n, Start(g, regs, mem)));
      assert Shows(Run(m, g, n, Start(g, regs, mem)), Run(m, f, n, Start(f, regs, mem)));
    }
  }

  // ----- Replacing the registers of a dead block by undef ----------------------------------------

  /** g has the blocks of f, with rs replaced by undef, whatever became of block l. */
  ghost predicate Undefined(f: Func, g: Func, l: Label, rs: set<Reg>) {
    && l in f.blocks && rs <= Defs(f.blocks[l]) && g.entry == f.entry && g.params == f.params
    && forall k {:trigger f.blocks[k]} :: k in f.blocks && k != l ==> k in g.blocks && g.blocks[k] == SubBlock(f.blocks[k], rs, Undef)
  }

  lemma DeadSubStep(m: Machine, f: Func, av: Avail, g: Func, l: Label, rs: set<Reg>, c: Config)
    requires Wf(f, av) && Undefined(f, g, l, rs) && Inv(f, av, c) && Untouched(f, l, c)
    ensures Step(m, g, c) == Step(m, f, c)
  {
    if c.At? {
      assert Apart(f, c.block, l);
      BlockUnwritten(m, f, g, c, rs);
    }
  }

  ghost predicate SameStep(m: Machine, f: Func, g: Func, regs: Regs, mem: Memory, n: nat) {
    var c := Run(m, f, n, Start(f, regs, mem)); Step(m, g, c) == Step(m, f, c)
  }

  lemma SameRunStep(m: Machine, f: Func, g: Func, regs: Regs, mem: Memory, n: nat)
    requires SameRun(m, f, g, regs, mem, n) && SameStep(m, f, g, regs, mem, n)
    ensures SameRun(m, f, g, regs, mem, n + 1)
  {
  }

  lemma {:induction false} SameStepsSameRun(m: Machine, f: Func, g: Func, regs: Regs, mem: Memory, n: nat)
    requires f.entry == g.entry && forall k: nat {:trigger SameStep(m, f, g, regs, mem, k)} :: SameStep(m, f, g, regs, mem, k)
    ensures SameRun(m, f, g, regs, mem, n)
  {
    if n > 0 {
      SameStepsSameRun(m, f, g, regs, mem, n - 1);
      assert SameStep(m, f, g, regs, mem, n - 1);
    }
  }

  lemma DeadSubNext(m: Machine, f: Func, av: Avail, g: Func, l: Label, rs: set<Reg>, n: nat, regs: Regs, mem: Memory)
    requires Wf(f, av) && Dead(f, l) && Undefined(f, g, l, rs) && regs.Keys == f.params
    ensures SameStep(m, f, g, regs, mem, n)
  {
    UntouchedRun(m, f, av, l, n, regs, mem);
    InvRun(m, f, av, n, regs, mem);
    DeadSubStep(m, f, av, g, l, rs, Run(m, f, n, Start(f, regs, mem)));
  }

  lemma DeadSubRun(m: Machine, f: Func, av: Avail, g: Func, l: Label, rs: set<Reg>, n: nat, regs: Regs, mem: Memory)
    requires Wf(f, av) && Dead(f, l) && Undefined(f, g, l, rs) && regs.Keys == f.params
    ensures SameRun(m, f, g, regs, mem, n)
  {
    forall k: nat ensures SameStep(m, f, g, regs, mem, k) {
      DeadSubNext(m, f, av, g, l, rs, k, regs, mem);
    }
    SameStepsSameRun(m, f, g, regs, mem, n);
  }

  lemma DeadSubEquivalent(f: Func, av: Avail, g: Func, l: Label, rs: set<Reg>)
    requires Wf(f, av) && Dead(f, l) && Undefined(f, g, l, rs)
    ensures Equivalent(f, g)
  {
    forall m, regs: Regs, mem, n: nat | regs.Keys == f.params ensures SameRun(m, f, g, regs, mem, n) {
      DeadSubRun(m, f, av, g, l, rs, n, regs, mem);
    }
    SameRunsEquivalent(f, g);
  }

  // ----- Well-formedness of a block after a replacement --------------------------------------------

  /** At the end of every block that leads to k, enough is still available. */
  ghost predicate SourceCovered(f: Func, av: Avail, g: Func, av': Avail, p: Label, rs: set<Reg>, x: Value) {
    && p in f.blocks && p in av && p in g.blocks && p in av'
    && Covers(AtEnd(f, av, p), AtEnd(g, av', p), rs, x)
  }

  lemma {:induction false} FromCountIn(incoming: seq<Incoming>, k: nat)
    requires k < |incoming|
    ensures FromCount(incoming, incoming[k].from) > 0
  {
    if k > 0 {
      FromCountIn(incoming[1..], k - 1);
    }
  }

  lemma PhiOkSub(f: Func, av: Avail, g: Func, av': Avail, k: Label, phi: Phi, rs: set<Reg>, x: Value)
    requires PhiOk(f, av, k, phi)
    requires forall p {:trigger Edges(g, p, k)} :: Edges(g, p, k) == Edges(f, p, k)
    requires forall p {:trigger SourceCovered(f, av, g, av', p, rs, x)} :: Edges(f, p, k) > 0 ==> SourceCovered(f, av, g, av', p, rs, x)
    ensures PhiOk(g, av', k, Phi(phi.dst, SubIncoming(phi.incoming, rs, x)))
  {
    var incoming' := SubIncoming(phi.incoming, rs, x);
    forall p ensures FromCount(incoming', p) == Edges(g, p, k) {
      SubIncomingFrom(phi.incoming, rs, x, None, p);
      assert FromCount(phi.incoming, p) == Edges(f, p, k);
    }
    forall i, j | 0 <= i < |incoming'| && 0 <= j < |incoming'| ensures Agree(incoming'[i], incoming'[j]) {
      assert Agree(phi.incoming[i], phi.incoming[j]);
    }
    forall i | 0 <= i < |incoming'| ensures IncomingKnown(g, av', incoming'[i]) {
      assert IncomingKnown(f, av, phi.incoming[i]);
      var p := phi.incoming[i].from;
      FromCountIn(phi.incoming, i);
      assert Edges(f, p, k) > 0;
      assert SourceCovered(f, av, g, av', p, rs, x);
      KnownSub(phi.incoming[i].value, AtEnd(f, av, p), AtEnd(g, av', p), rs, x);
    }
  }

  lemma BlockOkSub(f: Func, av: Avail, g: Func, av': Avail, k: Label, rs: set<Reg>, x: Value)
    requires k in f.blocks && k in av && BlockOk(f, av, k) && g.params == f.params
    requires k in g.blocks && k in av' && g.blocks[k] == SubBlock(f.blocks[k], rs, x)
    requires InstDefs(f.blocks[k].insts) !! rs
    requires Covers(av[k] + PhiDefs(f.blocks[k].phis), av'[k] + PhiDefs(f.blocks[k].phis), rs, x)
    requires Covers(AtEnd(f, av, k), AtEnd(g, av', k), rs, x)
    requires EdgesOk(g, av', k, f.blocks[k].term.succs)
    requires forall p {:trigger Edges(g, p, k)} :: Edges(g, p, k) == Edges(f, p, k)
    requires forall p {:trigger SourceCovered(f, av, g, av', p, rs, x)} :: Edges(f, p, k) > 0 ==> SourceCovered(f, av, g, av', p, rs, x)
    ensures BlockOk(g, av', k)
  {
    var b := f.blocks[k];
    SubBlockDefs(b, rs, x);
    InstsKnownSub(b.insts, av[k] + PhiDefs(b.phis), av'[k] + PhiDefs(b.phis), rs, x);
    KindKnownSub(b.term, AtEnd(f, av, k), AtEnd(g, av', k), rs, x);
    forall j | 0 <= j < |b.phis| ensures PhiOk(g, av', k, g.blocks[k].phis[j]) {
      assert PhiOk(f, av, k, b.phis[j]);
      PhiOkSub(f, av, g, av', k, b.phis[j], rs, x);
    }
  }

  // ----- Removing a dead block without successors -----------------------------------------------------

  function RemoveBlock(f: Func, l: Label): Func
    requires l in f.blocks
  {
    f.(blocks := SubBlocks(f.blocks - {l}, Defs(f.blocks[l]), Undef))
  }

  function WithoutRegs(av: Avail, rs: set<Reg>): Avail {
    map k | k in av :: av[k] - rs
  }

  /** Other blocks do not write the registers of l, so they lose nothing but those. */
  lemma OthersCovered(f: Func, av: Avail, g: Func, av': Avail, l: Label, rs: set<Reg>, p: Label)
    requires Wf(f, av) && l in f.blocks && rs <= Defs(f.blocks[l]) && p in f.blocks && p != l
    requires p in g.blocks && g.blocks[p] == SubBlock(f.blocks[p], rs, Undef) && p in av' && av'[p] == av[p] - rs
    ensures Defs(f.blocks[p]) !! rs && SourceCovered(f, av, g, av', p, rs, Undef)
    ensures Covers(av[p] + PhiDefs(f.blocks[p].phis), av'[p] + PhiDefs(f.blocks[p].phis), rs, Undef)
  {
    assert Apart(f, p, l);
    SubBlockDefs(f.blocks[p], rs, Undef);
  }

  lemma OthersEdgesOk(f: Func, av: Avail, g: Func, av': Avail, l: Label, rs: set<Reg>, p: Label)
    requires Wf(f, av) && Dead(f, l) && p in f.blocks && p != l && Undefined(f, g, l, rs)
    requires forall k :: k in f.blocks && k != l ==> k in av' && av'[k] == av[k] - rs
    ensures EdgesOk(g, av', p, f.blocks[p].term.succs)
  {
    var succs := f.blocks[p].term.succs;
    OthersCovered(f, av, g, av', l, rs, p);
    forall j | 0 <= j < |succs| ensures EdgeOk(g, av', p, succs[j]) {
      assert BlockOk(f, av, p);
      assert EdgeOk(f, av, p, succs[j]);
      CountIn(succs, succs[j]);
      assert Edges(f, p, l) == 0;
      CountIn(succs, l);
    }
  }

  /** A block other than l stays well-formed when registers of l become undef. */
  lemma OtherBlockOk(f: Func, av: Avail, g: Func, av': Avail, l: Label, rs: set<Reg>, k: Label)
    requires Wf(f, av) && Dead(f, l) && Undefined(f, g, l, rs) && k in f.blocks && k != l
    requires forall j :: j in f.blocks && j != l ==> j in av' && av'[j] == av[j] - rs
    requires forall p {:trigger Edges(g, p, k)} :: Edges(g, p, k) == Edges(f, p, k)
    requires Edges(f, l, k) > 0 ==> SourceCovered(f, av, g, av', l, rs, Undef)
    ensures BlockOk(g, av', k)
  {
    assert BlockOk(f, av, k);
    OthersCovered(f, av, g, av', l, rs, k);
    OthersEdgesOk(f, av, g, av', l, rs, k);
    forall p | Edges(f, p, k) > 0 ensures SourceCovered(f, av, g, av', p, rs, Undef) {
      if p != l {
        OthersCovered(f, av, g, av', l, rs, p);
      }
    }
    BlockOkSub(f, av, g, av', k, rs, Undef);
  }

  lemma RemoveBlockOther(f: Func, av: Avail, l: Label, k: Label)
    requires Wf(f, av) && Dead(f, l) && f.blocks[l].term.succs == [] && k in f.blocks && k != l
    ensures BlockOk(RemoveBlock(f, l), WithoutRegs(av - {l}, Defs(f.blocks[l])), k)
  {
    var rs := Defs(f.blocks[l]);
    var g := RemoveBlock(f, l);
    var av' := WithoutRegs(av - {l}, rs);
    assert Undefined(f, g, l, rs);
    EdgesAfterRemove(f, l, l, k);
    forall p ensures Edges(g, p, k) == Edges(f, p, k) {
      EdgesAfterRemove(f, l, p, k);
    }
    OtherBlockOk(f, av, g, av', l, rs, k);
  }

  lemma EdgesAfterRemove(f: Func, l: Label, p: Label, k: Label)
    requires l in f.blocks && f.blocks[l].term.succs == []
    ensures Edges(RemoveBlock(f, l), p, k) == Edges(f, p, k)
    ensures Edges(f, l, k) == 0
  {
    if p in f.blocks && p != l {
      SubBlockDefs(f.blocks[p], Defs(f.blocks[l]), Undef);
    }
  }

  lemma RemoveBlockWf(f: Func, av: Avail, l: Label)
    requires Wf(f, av) && Dead(f, l) && f.blocks[l].term.succs == []
    ensures Wf(RemoveBlock(f, l), WithoutRegs(av - {l}, Defs(f.blocks[l])))
  {
    var rs := Defs(f.blocks[l]);
    var g := RemoveBlock(f, l);
    var av' := WithoutRegs(av - {l}, rs);
    assert av'[f.entry] == f.params by {
      assert BlockOk(f, av, l);
    }
    forall k | k in g.blocks ensures BlockOk(g, av', k) {
      RemoveBlockOther(f, av, l, k);
    }
    forall k, j | k in g.blocks && j in g.blocks ensures Apart(g, k, j) {
      assert Apart(f, k, j);
      SubBlockDefs(f.blocks[k], rs, Undef);
      SubBlockDefs(f.blocks[j], rs, Undef);
    }
  }

  lemma RemoveBlockEquivalent(f: Func, av: Avail, l: Label)
    requires Wf(f, av) && Dead(f, l)
    ensures Equivalent(f, RemoveBlock(f, l))
  {
    DeadSubEquivalent(f, av, RemoveBlock(f, l), l, Defs(f.blocks[l]));
  }

  // ----- Erasing PHI nodes that have lost their last incoming value --------------------------------------

  function KeepPhis(phis: seq<Phi>): seq<Phi> {
    if phis == [] then []
    else KeepPhis(phis[..|phis| - 1]) + (if phis[|phis| - 1].incoming == [] then [] else [phis[|phis| - 1]])
  }

  function EmptyDefs(phis: seq<Phi>): set<Reg> {
    if phis == [] then {}
    else EmptyDefs(phis[..|phis| - 1]) + (if phis[|phis| - 1].incoming == [] then {phis[|phis| - 1].dst} else {})
  }

  /** removeIncomingValue deletes a PHI node whose list becomes empty; its uses become undef. */
  function ErasePhis(f: Func, l: Label): Func
    requires l in f.blocks
  {
    var b := f.blocks[l];
    f.(blocks := SubBlocks(f.blocks[l := b.(phis := KeepPhis(b.phis))], EmptyDefs(b.phis), Undef))
  }

  lemma {:induction false} KeepNone(phis: seq<Phi>)
    requires forall k :: 0 <= k < |phis| ==> phis[k].incoming == []
    ensures KeepPhis(phis) == [] && EmptyDefs(phis) == PhiDefs(phis)
  {
    if phis != [] {
      KeepNone(phis[..|phis| - 1]);
    }
  }

  lemma {:induction false} KeepEvery(phis: seq<Phi>)
    requires forall k :: 0 <= k < |phis| ==> phis[k].incoming != []
    ensures KeepPhis(phis) == phis && EmptyDefs(phis) == {}
  {
    if phis != [] {
      KeepEvery(phis[..|phis| - 1]);
      assert phis == phis[..|phis| - 1] + [phis[|phis| - 1]];
    }
  }

  /** A block has empty PHI nodes exactly if nothing leads to it, and then all are empty. */
  lemma EmptyPhis(f: Func, av: Avail, l: Label)
    requires Wf(f, av) && l in f.blocks && l != f.entry
    ensures Dead(f, l) ==> forall k :: 0 <= k < |f.blocks[l].phis| ==> f.blocks[l].phis[k].incoming == []
    ensures !Dead(f, l) ==> forall k :: 0 <= k < |f.blocks[l].phis| ==> f.blocks[l].phis[k].incoming != []
  {
    assert BlockOk(f, av, l);
    var phis := f.blocks[l].phis;
    if Dead(f, l) {
      forall k | 0 <= k < |phis| ensures phis[k].incoming == [] {
        assert PhiOk(f, av, l, phis[k]);
        if phis[k].incoming != [] {
          FromCountIn(phis[k].incoming, 0);
        }
      }
    } else {
      var p :| Edges(f, p, l) != 0;
      forall k | 0 <= k < |phis| ensures phis[k].incoming != [] {
        assert PhiOk(f, av, l, phis[k]);
        assert FromCount(phis[k].incoming, p) == Edges(f, p, l);
      }
    }
  }

  lemma EdgesAfterErase(f: Func, l: Label, p: Label, k: Label)
    requires l in f.blocks
    ensures Edges(ErasePhis(f, l), p, k) == Edges(f, p, k)
  {
    if p in f.blocks {
      var b := f.blocks[p];
      SubBlockDefs(if p == l then b.(phis := KeepPhis(b.phis)) else b, EmptyDefs(f.blocks[l].phis), Undef);
    }
  }

  lemma ErasePhisSelf(f: Func, av: Avail, l: Label, av': Avail)
    requires Wf(f, av) && Dead(f, l) && av' == WithoutRegs(av, PhiDefs(f.blocks[l].phis))
    ensures var g := ErasePhis(f, l);
      BlockOk(g, av', l) && Defs(g.blocks[l]) == InstDefs(f.blocks[l].insts)
  {
    var g := ErasePhis(f, l);
    var b := f.blocks[l];
    var rs := PhiDefs(b.phis);
    EmptyPhis(f, av, l);
    KeepNone(b.phis);
    var kept := b.(phis := []);
    assert BlockOk(f, av, l);
    SubBlockDefs(kept, rs, Undef);
    assert g.blocks[l] == SubBlock(kept, rs, Undef);
    assert av'[l] + PhiDefs(g.blocks[l].phis) == av'[l];
    InstsKnownSub(b.insts, av[l] + rs, av'[l], rs, Undef);
    KindKnownSub(b.term, AtEnd(f, av, l), AtEnd(g, av', l), rs, Undef);
    forall k | 0 <= k < |b.term.succs| ensures EdgeOk(g, av', l, b.term.succs[k]) {
      assert EdgeOk(f, av, l, b.term.succs[k]);
    }
  }

  lemma ErasePhisOther(f: Func, av: Avail, l: Label, av': Avail, k: Label)
    requires Wf(f, av) && Dead(f, l) && av' == WithoutRegs(av, PhiDefs(f.blocks[l].phis)) && k in f.blocks && k != l
    ensures BlockOk(ErasePhis(f, l), av', k)
  {
    var g := ErasePhis(f, l);
    var rs := PhiDefs(f.blocks[l].phis);
    ErasePhisUndefined(f, av, l);
    ErasePhisSource(f, av, l, av');
    forall p ensures Edges(g, p, k) == Edges(f, p, k) {
      EdgesAfterErase(f, l, p, k);
    }
    OtherBlockOk(f, av, g, av', l, rs, k);
  }

  lemma ErasePhisUndefined(f: Func, av: Avail, l: Label)
    requires Wf(f, av) && Dead(f, l)
    ensures Undefined(f, ErasePhis(f, l), l, PhiDefs(f.blocks[l].phis))
  {
    EmptyPhis(f, av, l);
    KeepNone(f.blocks[l].phis);
  }

  lemma ErasePhisSource(f: Func, av: Avail, l: Label, av': Avail)
    requires Wf(f, av) && Dead(f, l) && av' == WithoutRegs(av, PhiDefs(f.blocks[l].phis))
    ensures SourceCovered(f, av, ErasePhis(f, l), av', l, PhiDefs(f.blocks[l].phis), Undef)
  {
    ErasePhisSelf(f, av, l, av');
  }

  lemma ErasePhisApart(f: Func, av: Avail, l: Label, k: Label, j: Label)
    requires Wf(f, av) && Dead(f, l) && k in f.blocks && j in f.blocks
    ensures Apart(ErasePhis(f, l), k, j)
  {
    var rs := PhiDefs(f.blocks[l].phis);
    EmptyPhis(f, av, l);
    KeepNone(f.blocks[l].phis);
    ErasePhisSelf(f, av, l, WithoutRegs(av, rs));
    assert Apart(f, k, j);
    if k != l { SubBlockDefs(f.blocks[k], rs, Undef); }
    if j != l { SubBlockDefs(f.blocks[j], rs, Undef); }
  }

  lemma ErasePhisWf(f: Func, av: Avail, l: Label)
    requires Wf(f, av) && Dead(f, l)
    ensures Wf(ErasePhis(f, l), WithoutRegs(av, PhiDefs(f.blocks[l].phis)))
  {
    var av' := WithoutRegs(av, PhiDefs(f.blocks[l].phis));
    assert av'[f.entry] == f.params by {
      assert BlockOk(f, av, l);
    }
    ErasePhisBlocks(f, av, l, av');
    forall k, j | k in f.blocks && j in f.blocks ensures Apart(ErasePhis(f, l), k, j) {
      ErasePhisApart(f, av, l, k, j);
    }
  }

  lemma ErasePhisBlocks(f: Func, av: Avail, l: Label, av': Avail)
    requires Wf(f, av) && Dead(f, l) && av' == WithoutRegs(av, PhiDefs(f.blocks[l].phis))
    ensures forall k {:trigger BlockOk(ErasePhis(f, l), av', k)} :: k in f.blocks ==> BlockOk(ErasePhis(f, l), av', k)
  {
    forall k | k in f.blocks ensures BlockOk(ErasePhis(f, l), av', k) {
      if k != l {
        ErasePhisOther(f, av, l, av', k);
      } else {
        ErasePhisSelf(f, av, l, av');
      }
    }
  }

  /** Erasing the empty PHI nodes of a block, if there are any, changes nothing observable. */
  lemma ErasePhisCorrect(f: Func, av: Avail, l: Label) returns (av': Avail)
    requires Wf(f, av) && l in f.blocks && l != f.entry
    ensures Wf(ErasePhis(f, l), av') && Equivalent(f, ErasePhis(f, l))
  {
    var b := f.blocks[l];
    EmptyPhis(f, av, l);
    if Dead(f, l) {
      KeepNone(b.phis);
      av' := WithoutRegs(av, PhiDefs(b.phis));
      ErasePhisWf(f, av, l);
      DeadSubEquivalent(f, av, ErasePhis(f, l), l, PhiDefs(b.phis));
    } else {
      KeepEvery(b.phis);
      assert f.blocks[l := b.(phis := KeepPhis(b.phis))] == f.blocks;
      SubNone(f.blocks, Undef);
      EquivalentRefl(f);
      av' := av;
    }
  }
}
