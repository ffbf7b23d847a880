/** What every run of a well-formed function keeps: control follows edges, and whatever
    should have been written where the last block ended has been written. */
module SsaRuns {
  import opened Wrappers
  import opened SsaFunction
  import opened SsaRewrite

  lemma {:induction false} EvalPhisKeys(m: Machine, phis: seq<Phi>, from: Option<Label>, regs: Regs)
    ensures EvalPhis(m, phis, from, regs).Keys == regs.Keys + PhiDefs(phis)
  {
    if phis != [] {
      EvalPhisKeys(m, phis[..|phis| - 1], from, regs);
    }
  }

  /** What one instruction does to the flow. */
  function Exec1(m: Machine, i: Inst, f: Flow): Flow
    requires f.Flow?
  {
    match m.exec(i.op, EvalAll(m, f.regs, i.args), f.mem)
    case Next(v, mem, emits) => Flow(f.regs[i.dst := v], mem, f.out + emits)
    case Ends(emits) => Exit(f.out + emits)
  }

  lemma {:induction false} ExecAllKeys(m: Machine, insts: seq<Inst>, f: Flow)
    ensures var f' := ExecAll(m, insts, f);
      && (f.Flow? && f'.Flow? ==> f'.regs.Keys == f.regs.Keys + InstDefs(insts))
      && f.out <= f'.out
    decreases |insts|
  {
    if insts != [] && f.Flow? {
      ExecAllKeys(m, insts[1..], Exec1(m, insts[0], f));
    }
  }

  lemma {:induction false} ExecAllApp(m: Machine, a: seq<Inst>, b: seq<Inst>, f: Flow)
    ensures ExecAll(m, a + b, f) == ExecAll(m, b, ExecAll(m, a, f))
    decreases |a|
  {
    if a == [] {
      assert a + b == b;
    } else if f.Flow? {
      assert (a + b)[1..] == a[1..] + b;
      ExecAllApp(m, a[1..], b, Exec1(m, a[0], f));
    }
  }

  lemma {:induction false} CountIn(ls: seq<Label>, l: Label)
    ensures Count(ls, l) > 0 <==> l in ls
  {
    if ls != [] {
      CountIn(ls[1..], l);
    }
  }

  lemma {:induction false} CaseTargetIn(n: int, cases: seq<int>, succs: seq<Label>)
    ensures var t := CaseTarget(n, cases, succs); t.Some? ==> t.value in succs
    decreases |succs|
  {
    if succs != [] && cases != [] && |succs| > 1 && cases[|cases| - 1] != n {
      CaseTargetIn(n, cases[..|cases| - 1], succs[..|succs| - 1]);
    }
  }

  lemma TargetIn(m: Machine, t: Term, regs: Regs)
    ensures var l := Target(m, t, regs); l.Some? ==> l.value in t.succs && Count(t.succs, l.value) > 0
  {
    var l := Target(m, t, regs);
    if t.kind.SwitchOn? {
      CaseTargetIn(Eval(m, regs, t.kind.subject), t.kind.cases, t.succs);
    }
    if l.Some? {
      CountIn(t.succs, l.value);
    }
  }

  // ----- Invariant of runs ------------------------------------------------------------------

  /** Control came over an edge, with everything written that should have been; at the
      entry, with the parameters. */
  ghost predicate Inv(f: Func, av: Avail, c: Config) {
    c.At? ==>
      c.block in f.blocks &&
      match c.prev
      case None => c.block == f.entry && c.regs.Keys == f.params
      case Some(p) => p in f.blocks && p in av && Edges(f, p, c.block) > 0 && AtEnd(f, av, p) <= c.regs.Keys
  }

  /** What is available on entry to a block, before its PHI nodes. */
  lemma InvAvail(f: Func, av: Avail, c: Config)
    requires Wf(f, av) && Inv(f, av, c) && c.At?
    ensures av[c.block] <= c.regs.Keys
    ensures c.prev.Some? ==> c.block != f.entry && av[c.block] <= AtEnd(f, av, c.prev.value)
  {
    if c.prev.Some? {
      var p := c.prev.value;
      assert BlockOk(f, av, p);
      var succs := f.blocks[p].term.succs;
      CountIn(succs, c.block);
      var k :| 0 <= k < |succs| && succs[k] == c.block;
      assert EdgeOk(f, av, p, succs[k]);
    }
  }

  lemma InvStep(m: Machine, f: Func, av: Avail, c: Config)
    requires Wf(f, av) && Inv(f, av, c)
    ensures Inv(f, av, Step(m, f, c))
  {
    if c.At? {
      var b := f.blocks[c.block];
      var flow := Body(m, b, c);
      InvAvail(f, av, c);
      EvalPhisKeys(m, b.phis, c.prev, c.regs);
      ExecAllKeys(m, b.insts, Flow(EvalPhis(m, b.phis, c.prev, c.regs), c.mem, c.out));
      if flow.Flow? {
        TargetIn(m, b.term, flow.regs);
        var l := Target(m, b.term, flow.regs);
        if l.Some? {
          assert BlockOk(f, av, c.block);
          var k :| 0 <= k < |b.term.succs| && b.term.succs[k] == l.value;
          assert EdgeOk(f, av, c.block, b.term.succs[k]);
        }
      }
    }
  }

  lemma {:induction false} InvRun(m: Machine, f: Func, av: Avail, n: nat, regs: Regs, mem: Memory)
    requires Wf(f, av) && regs.Keys == f.params
    ensures Inv(f, av, Run(m, f, n, Start(f, regs, mem)))
  {
    if n > 0 {
      InvRun(m, f, av, n - 1, regs, mem);
      InvStep(m, f, av, Run(m, f, n - 1, Start(f, regs, mem)));
    }
  }

  // ----- Blocks nothing leads to ---------------------------------------------------------------

  /** Not the entry, and without predecessors. */
  ghost predicate Dead(f: Func, l: Label) {
    l in f.blocks && l != f.entry && forall p {:trigger Edges(f, p, l)} :: Edges(f, p, l) == 0
  }

  /** Control is not in a dead block, and none of its registers has been written. */
  ghost predicate Untouched(f: Func, l: Label, c: Config)
    requires l in f.blocks
  {
    c.At? ==> c.block != l && c.regs.Keys !! Defs(f.blocks[l])
  }

  lemma UntouchedStep(m: Machine, f: Func, av: Avail, l: Label, c: Config)
    requires Wf(f, av) && Dead(f, l) && Inv(f, av, c) && Untouched(f, l, c)
    ensures Untouched(f, l, Step(m, f, c))
  {
    InvStep(m, f, av, c);
    var c' := Step(m, f, c);
    if c'.At? {
      var b := f.blocks[c.block];
      EvalPhisKeys(m, b.phis, c.prev, c.regs);
      ExecAllKeys(m, b.insts, Flow(EvalPhis(m, b.phis, c.prev, c.regs), c.mem, c.out));
      assert Apart(f, c.block, l);
      assert Edges(f, c.block, c'.block) > 0;
    }
  }

  lemma {:induction false} UntouchedRun(m: Machine, f: Func, av: Avail, l: Label, n: nat, regs: Regs, mem: Memory)
    requires Wf(f, av) && Dead(f, l) && regs.Keys == f.params
    ensures Untouched(f, l, Run(m, f, n, Start(f, regs, mem)))
  {
    if n > 0 {
      UntouchedRun(m, f, av, l, n - 1, regs, mem);
      InvRun(m, f, av, n - 1, regs, mem);
      UntouchedStep(m, f, av, l, Run(m, f, n - 1, Start(f, regs, mem)));
    } else {
      assert BlockOk(f, av, l);
    }
  }

  // ----- A register that is never written may as well be undef ------------------------------------

  lemma {:induction false} EvalAllUnwritten(m: Machine, regs: Regs, vs: seq<Value>, rs: set<Reg>)
    requires regs.Keys !! rs
    ensures EvalAll(m, regs, SubAll(vs, rs, Undef)) == EvalAll(m, regs, vs)
  {
    if vs != [] {
      assert SubAll(vs, rs, Undef)[1..] == SubAll(vs[1..], rs, Undef);
      EvalAllUnwritten(m, regs, vs[1..], rs);
    }
  }

  ghost predicate SamePhi(m: Machine, phi: Phi, phi': Phi, from: Option<Label>, regs: Regs) {
    phi'.dst == phi.dst && Eval(m, regs, ValueFrom(phi'.incoming, from)) == Eval(m, regs, ValueFrom(phi.incoming, from))
  }

  /** PHI nodes that write the same values to the same registers. */
  lemma {:induction false} SamePhis(m: Machine, phis: seq<Phi>, phis': seq<Phi>, from: Option<Label>, regs: Regs)
    requires |phis'| == |phis|
    requires forall k {:trigger SamePhi(m, phis[k], phis'[k], from, regs)} :: 0 <= k < |phis| ==> SamePhi(m, phis[k], phis'[k], from, regs)
    ensures EvalPhis(m, phis', from, regs) == EvalPhis(m, phis, from, regs)
  {
    if phis != [] {
      var last := |phis| - 1;
      forall k | 0 <= k < last ensures SamePhi(m, phis[..last][k], phis'[..last][k], from, regs) {
        assert SamePhi(m, phis[k], phis'[k], from, regs);
      }
      SamePhis(m, phis[..last], phis'[..last], from, regs);
      assert SamePhi(m, phis[last], phis'[last], from, regs);
    }
  }

  lemma PhisUnwritten(m: Machine, phis: seq<Phi>, from: Option<Label>, regs: Regs, rs: set<Reg>)
    requires regs.Keys !! rs
    ensures EvalPhis(m, SubPhis(phis, rs, Undef), from, regs) == EvalPhis(m, phis, from, regs)
  {
    var phis' := SubPhis(phis, rs, Undef);
    forall k | 0 <= k < |phis| ensures SamePhi(m, phis[k], phis'[k], from, regs) {
      SubIncomingFrom(phis[k].incoming, rs, Undef, from, 0);
    }
    SamePhis(m, phis, phis', from, regs);
  }

  lemma {:induction false} InstsUnwritten(m: Machine, insts: seq<Inst>, f: Flow, rs: set<Reg>)
    requires (f.Flow? ==> f.regs.Keys !! rs) && InstDefs(insts) !! rs
    ensures ExecAll(m, SubInsts(insts, rs, Undef), f) == ExecAll(m, insts, f)
    decreases |insts|
  {
    if insts != [] && f.Flow? {
      EvalAllUnwritten(m, f.regs, insts[0].args, rs);
      assert SubInsts(insts, rs, Undef)[1..] == SubInsts(insts[1..], rs, Undef);
      InstsUnwritten(m, insts[1..], Exec1(m, insts[0], f), rs);
    }
  }

  lemma BodyUnwritten(m: Machine, b: Block, c: Config, rs: set<Reg>)
    requires c.At? && c.regs.Keys !! rs && Defs(b) !! rs
    ensures Body(m, SubBlock(b, rs, Undef), c) == Body(m, b, c)
    ensures Body(m, b, c).Flow? ==> Body(m, b, c).regs.Keys !! rs
  {
    PhisUnwritten(m, b.phis, c.prev, c.regs, rs);
    EvalPhisKeys(m, b.phis, c.prev, c.regs);
    var start := Flow(EvalPhis(m, b.phis, c.prev, c.regs), c.mem, c.out);
    InstsUnwritten(m, b.insts, start, rs);
    ExecAllKeys(m, b.insts, start);
  }

  lemma LeaveUnwritten(m: Machine, block: Label, t: Term, f: Flow, rs: set<Reg>)
    requires f.Flow? ==> f.regs.Keys !! rs
    ensures Leave(m, block, SubTerm(t, rs, Undef), f) == Leave(m, block, t, f)
  {
  }

  /** A block that does not write rs behaves the same with rs replaced by undef. */
  lemma BlockUnwritten(m: Machine, f: Func, g: Func, c: Config, rs: set<Reg>)
    requires c.At? && c.block in f.blocks && c.block in g.blocks
    requires c.regs.Keys !! rs && Defs(f.blocks[c.block]) !! rs
    requires g.blocks[c.block] == SubBlock(f.blocks[c.block], rs, Undef)
    ensures Step(m, g, c) == Step(m, f, c)
  {
    var b := f.blocks[c.block];
    BodyUnwritten(m, b, c, rs);
    LeaveUnwritten(m, c.block, b.term, Body(m, b, c), rs);
  }
}
