/** A PHI node with a single incoming value is a copy: replacing its uses by that value
    and erasing it changes nothing observable.

    The delicate point is loops: the copied register may be written again while the copy
    still holds the old value.  Dominance rules out every use of the copy in that window. */
module SsaForward {
  import opened Wrappers
  import opened SsaFunction
  import opened SsaRewrite
  import opened SsaRuns
  import opened SsaDead

  /** bb has pred as its only predecessor edge, and its first PHI node copies v into p. */
  ghost predicate Copies(f: Func, av: Avail, bb: Label, pred: Label, p: Reg, v: Value) {
    && Wf(f, av) && bb in f.blocks && pred in f.blocks && pred != bb && bb != f.entry
    && (forall q {:trigger Edges(f, q, bb)} :: Edges(f, q, bb) == if q == pred then 1 else 0)
    && |f.blocks[bb].phis| > 0 && f.blocks[bb].phis[0] == Phi(p, [Incoming(v, pred)])
    && v != Use(p)
  }

  /** PN.replaceAllUsesWith(PN.getIncomingValue(0)); PN.eraseFromParent(), for the first PHI node. */
  function ForwardPhi(f: Func, bb: Label): Func
    requires bb in f.blocks && |f.blocks[bb].phis| > 0 && |f.blocks[bb].phis[0].incoming| > 0
  {
    var b := f.blocks[bb];
    f.(blocks := SubBlocks(f.blocks[bb := b.(phis := b.phis[1..])], {b.phis[0].dst}, b.phis[0].incoming[0].value))
  }

  function Reads(v: Value): set<Reg> {
    if v.Use? then {v.r} else {}
  }

  /** What is available after the replacement: v wherever p was, and in bb itself. */
  function Forwarded(av: Avail, bb: Label, p: Reg, v: Value): Avail {
    map k | k in av :: (av[k] - {p}) + (if p in av[k] || k == bb then Reads(v) else {})
  }

  // ----- Well-formedness ----------------------------------------------------------------------

  lemma {:induction false} PhiDefsFirst(phis: seq<Phi>)
    requires |phis| > 0
    ensures PhiDefs(phis) == {phis[0].dst} + PhiDefs(phis[1..])
    ensures OncePhis(phis) ==> OncePhis(phis[1..]) && phis[0].dst !in PhiDefs(phis[1..])
  {
    var last := |phis| - 1;
    if last > 0 {
      PhiDefsFirst(phis[..last]);
      assert phis[..last][1..] == phis[1..][..last - 1];
      assert phis[1..][last - 1] == phis[last];
    } else {
      assert phis[1..] == [] && phis[..0] == [];
    }
  }

  /** Where p is written, and where it is not. */
  lemma PWrittenInBb(f: Func, av: Avail, bb: Label, pred: Label, p: Reg, v: Value, q: Label)
    requires Copies(f, av, bb, pred, p, v) && q in f.blocks
    ensures p in PhiDefs(f.blocks[bb].phis) && p !in f.params && p !in InstDefs(f.blocks[q].insts)
    ensures q != bb ==> p !in Defs(f.blocks[q])
    ensures p !in PhiDefs(f.blocks[bb].phis[1..]) && PhiDefs(f.blocks[bb].phis) == {p} + PhiDefs(f.blocks[bb].phis[1..])
  {
    PhiDefsFirst(f.blocks[bb].phis);
    assert BlockOk(f, av, bb);
    assert Apart(f, bb, q);
  }

  /** v is available at the end of the predecessor. */
  lemma VKnownAtPred(f: Func, av: Avail, bb: Label, pred: Label, p: Reg, v: Value)
    requires Copies(f, av, bb, pred, p, v)
    ensures Known(v, AtEnd(f, av, pred))
  {
    assert BlockOk(f, av, bb) && PhiOk(f, av, bb, f.blocks[bb].phis[0]);
    assert IncomingKnown(f, av, f.blocks[bb].phis[0].incoming[0]);
  }

  /** The blocks before the replacement of uses: bb without its first PHI node. */
  function Trimmed(f: Func, bb: Label, k: Label): Block
    requires k in f.blocks && bb in f.blocks && |f.blocks[bb].phis| > 0
  {
    if k == bb then f.blocks[k].(phis := f.blocks[k].phis[1..]) else f.blocks[k]
  }

  lemma TrimmedFacts(f: Func, av: Avail, bb: Label, pred: Label, p: Reg, v: Value, k: Label)
    requires Copies(f, av, bb, pred, p, v) && k in f.blocks
    ensures var b, b' := f.blocks[k], Trimmed(f, bb, k);
      && Defs(b') == Defs(b) - {p} && PhiDefs(b'.phis) == PhiDefs(b.phis) - {p} && Once(b') && ShapeOk(b'.term)
  {
    assert BlockOk(f, av, k);
    PhiDefsFirst(f.blocks[bb].phis);
    PWrittenInBb(f, av, bb, pred, p, v, k);
  }

  lemma ForwardBlock(f: Func, av: Avail, bb: Label, pred: Label, p: Reg, v: Value, k: Label)
    requires Copies(f, av, bb, pred, p, v) && k in f.blocks
    ensures var g := ForwardPhi(f, bb);
      var b := f.blocks[k];
      && g.blocks.Keys == f.blocks.Keys && g.blocks[k] == SubBlock(Trimmed(f, bb, k), {p}, v)
      && Defs(g.blocks[k]) == Defs(b) - {p} && PhiDefs(g.blocks[k].phis) == PhiDefs(b.phis) - {p}
      && Once(g.blocks[k]) && g.blocks[k].term.succs == b.term.succs && ShapeOk(g.blocks[k].term)
  {
    TrimmedFacts(f, av, bb, pred, p, v, k);
    SubBlockDefs(Trimmed(f, bb, k), {p}, v);
  }

  lemma ForwardEdges(f: Func, av: Avail, bb: Label, pred: Label, p: Reg, v: Value, q: Label, k: Label)
    requires Copies(f, av, bb, pred, p, v)
    ensures Edges(ForwardPhi(f, bb), q, k) == Edges(f, q, k)
  {
    if q in f.blocks {
      ForwardBlock(f, av, bb, pred, p, v, q);
    }
  }

  lemma ForwardCovered(f: Func, av: Avail, bb: Label, pred: Label, p: Reg, v: Value, k: Label)
    requires Copies(f, av, bb, pred, p, v) && k in f.blocks
    ensures SourceCovered(f, av, ForwardPhi(f, bb), Forwarded(av, bb, p, v), k, {p}, v)
    ensures Covers(av[k] + PhiDefs(f.blocks[k].phis), Forwarded(av, bb, p, v)[k] + PhiDefs(ForwardPhi(f, bb).blocks[k].phis), {p}, v)
  {
    ForwardBlock(f, av, bb, pred, p, v, k);
    PWrittenInBb(f, av, bb, pred, p, v, k);
    var b, g := f.blocks[k], ForwardPhi(f, bb);
    ForwardedCovers(av, bb, p, v, k, Defs(b), Defs(g.blocks[k]));
    ForwardedCovers(av, bb, p, v, k, PhiDefs(b.phis), PhiDefs(g.blocks[k].phis));
  }

  /** With the registers that a block writes, or with those that its PHI nodes write. */
  lemma ForwardedCovers(av: Avail, bb: Label, p: Reg, v: Value, k: Label, ds: set<Reg>, ds': set<Reg>)
    requires k in av && ds' == ds - {p} && (p in ds ==> k == bb)
    ensures Covers(av[k] + ds, Forwarded(av, bb, p, v)[k] + ds', {p}, v)
  {
  }

  lemma ForwardEdgesOk(f: Func, av: Avail, bb: Label, pred: Label, p: Reg, v: Value, k: Label)
    requires Copies(f, av, bb, pred, p, v) && k in f.blocks
    ensures EdgesOk(ForwardPhi(f, bb), Forwarded(av, bb, p, v), k, f.blocks[k].term.succs)
  {
    var g := ForwardPhi(f, bb);
    var av' := Forwarded(av, bb, p, v);
    var succs := f.blocks[k].term.succs;
    ForwardCovered(f, av, bb, pred, p, v, k);
    VKnownAtPred(f, av, bb, pred, p, v);
    forall j | 0 <= j < |succs| ensures EdgeOk(g, av', k, succs[j]) {
      assert BlockOk(f, av, k) && EdgeOk(f, av, k, succs[j]);
      var to := succs[j];
      if to == bb {
        CountIn(succs, bb);
        assert Edges(f, k, bb) > 0;
      }
      assert av[to] <= AtEnd(f, av, k);
    }
  }

  lemma ForwardOk(f: Func, av: Avail, bb: Label, pred: Label, p: Reg, v: Value, k: Label)
    requires Copies(f, av, bb, pred, p, v) && k in f.blocks
    ensures BlockOk(ForwardPhi(f, bb), Forwarded(av, bb, p, v), k)
  {
    var g := ForwardPhi(f, bb);
    var av' := Forwarded(av, bb, p, v);
    var b := f.blocks[k];
    assert BlockOk(f, av, k);
    ForwardBlock(f, av, bb, pred, p, v, k);
    ForwardCovered(f, av, bb, pred, p, v, k);
    ForwardEdgesOk(f, av, bb, pred, p, v, k);
    PWrittenInBb(f, av, bb, pred, p, v, k);
    InstsKnownSub(b.insts, av[k] + PhiDefs(b.phis), av'[k] + PhiDefs(g.blocks[k].phis), {p}, v);
    KindKnownSub(b.term, AtEnd(f, av, k), AtEnd(g, av', k), {p}, v);
    forall j | 0 <= j < |g.blocks[k].phis| ensures PhiOk(g, av', k, g.blocks[k].phis[j]) {
      ForwardPhiOk(f, av, bb, pred, p, v, k, if k == bb then j + 1 else j);
    }
  }

  lemma ForwardPhiOk(f: Func, av: Avail, bb: Label, pred: Label, p: Reg, v: Value, k: Label, j: nat)
    requires Copies(f, av, bb, pred, p, v) && k in f.blocks && j < |f.blocks[k].phis|
    ensures var phi := f.blocks[k].phis[j];
      PhiOk(ForwardPhi(f, bb), Forwarded(av, bb, p, v), k, Phi(phi.dst, SubIncoming(phi.incoming, {p}, v)))
  {
    var g := ForwardPhi(f, bb);
    var av' := Forwarded(av, bb, p, v);
    assert BlockOk(f, av, k) && PhiOk(f, av, k, f.blocks[k].phis[j]);
    forall q ensures Edges(g, q, k) == Edges(f, q, k) {
      ForwardEdges(f, av, bb, pred, p, v, q, k);
    }
    forall q | Edges(f, q, k) > 0 ensures SourceCovered(f, av, g, av', q, {p}, v) {
      ForwardCovered(f, av, bb, pred, p, v, q);
    }
    PhiOkSub(f, av, g, av', k, f.blocks[k].phis[j], {p}, v);
  }

  lemma ForwardApart(f: Func, av: Avail, bb: Label, pred: Label, p: Reg, v: Value, k: Label, j: Label)
    requires Copies(f, av, bb, pred, p, v) && k in f.blocks && j in f.blocks
    ensures k in ForwardPhi(f, bb).blocks && j in ForwardPhi(f, bb).blocks && Apart(ForwardPhi(f, bb), k, j)
  {
    assert Apart(f, k, j);
    ForwardBlock(f, av, bb, pred, p, v, k);
    ForwardBlock(f, av, bb, pred, p, v, j);
  }

  lemma ForwardWf(f: Func, av: Avail, bb: Label, pred: Label, p: Reg, v: Value)
    requires Copies(f, av, bb, pred, p, v)
    ensures Wf(ForwardPhi(f, bb), Forwarded(av, bb, p, v))
  {
    var g := ForwardPhi(f, bb);
    var av' := Forwarded(av, bb, p, v);
    assert av'[f.entry] == f.params by {
      PWrittenInBb(f, av, bb, pred, p, v, bb);
    }
    forall k | k in g.blocks ensures BlockOk(g, av', k) {
      ForwardOk(f, av, bb, pred, p, v, k);
    }
    forall k, j | k in g.blocks && j in g.blocks ensures Apart(g, k, j) {
      ForwardApart(f, av, bb, pred, p, v, k, j);
    }
  }

  // ----- The copy and the original agree wherever the copy may be used -----------------------------

  /** p and v have the same value. */
  predicate Synced(m: Machine, regs: Regs, p: Reg, v: Value) {
    Eval(m, regs, Use(p)) == Eval(m, regs, v)
  }

  /** v's register is written in bb, or in a block on whose entry p is available.  Such
      code cannot be reached: each of the two would have to be written before the other. */
  ghost predicate BothFirst(f: Func, av: Avail, bb: Label, p: Reg, v: Value)
    requires bb in f.blocks && av.Keys == f.blocks.Keys
  {
    v.Use? && (v.r in Defs(f.blocks[bb]) || exists q :: q in f.blocks && v.r in Defs(f.blocks[q]) && p in av[q])
  }

  /** Neither register has been written. */
  ghost predicate Neither(c: Config, p: Reg, v: Value) {
    c.At? ==> p !in c.regs && (v.Use? ==> v.r !in c.regs)
  }

  /** Control comes to bb only from pred, with v available. */
  lemma AtBb(f: Func, av: Avail, bb: Label, pred: Label, p: Reg, v: Value, c: Config)
    requires Copies(f, av, bb, pred, p, v) && Inv(f, av, c) && c.At? && c.block == bb
    ensures c.prev == Some(pred) && Known(v, c.regs.Keys)
  {
    VKnownAtPred(f, av, bb, pred, p, v);
    if c.prev.Some? {
      assert Edges(f, c.prev.value, bb) > 0;
    }
  }

  lemma CircularStep(m: Machine, f: Func, av: Avail, bb: Label, pred: Label, p: Reg, v: Value, c: Config)
    requires Copies(f, av, bb, pred, p, v) && BothFirst(f, av, bb, p, v) && Inv(f, av, c) && Neither(c, p, v)
    ensures c.At? ==> c.block != bb && v.r !in Defs(f.blocks[c.block])
    ensures Neither(Step(m, f, c), p, v)
  {
    if c.At? {
      var q := c.block;
      if q == bb {
        AtBb(f, av, bb, pred, p, v, c);
        assert false;
      }
      InvAvail(f, av, c);
      PWrittenInBb(f, av, bb, pred, p, v, q);
      if v.r in Defs(f.blocks[bb]) {
        assert Apart(f, q, bb);
      } else {
        var q' :| q' in f.blocks && v.r in Defs(f.blocks[q']) && p in av[q'];
        assert q' != q;
        assert Apart(f, q, q');
      }
      var b := f.blocks[q];
      EvalPhisKeys(m, b.phis, c.prev, c.regs);
      ExecAllKeys(m, b.insts, Flow(EvalPhis(m, b.phis, c.prev, c.regs), c.mem, c.out));
    }
  }

  lemma {:induction false} CircularRun(m: Machine, f: Func, av: Avail, bb: Label, pred: Label, p: Reg, v: Value, n: nat, regs: Regs, mem: Memory)
    requires Copies(f, av, bb, pred, p, v) && BothFirst(f, av, bb, p, v) && regs.Keys == f.params
    ensures Neither(Run(m, f, n, Start(f, regs, mem)), p, v)
  {
    if n > 0 {
      CircularRun(m, f, av, bb, pred, p, v, n - 1, regs, mem);
      InvRun(m, f, av, n - 1, regs, mem);
      CircularStep(m, f, av, bb, pred, p, v, Run(m, f, n - 1, Start(f, regs, mem)));
    } else {
      PWrittenInBb(f, av, bb, pred, p, v, bb);
      if v.r in Defs(f.blocks[bb]) {
        assert BlockOk(f, av, bb);
      } else {
        var q :| q in f.blocks && v.r in Defs(f.blocks[q]) && p in av[q];
        assert BlockOk(f, av, q);
      }
    }
  }

  /** While control is where p may be used, the block does not write v's register. */
  ghost predicate Quiet(f: Func, av: Avail, bb: Label, p: Reg, v: Value, c: Config)
    requires av.Keys == f.blocks.Keys
  {
    c.At? && c.block in f.blocks && (p in av[c.block] || c.block == bb) ==> Reads(v) !! Defs(f.blocks[c.block])
  }

  /** What is certain where control came from. */
  function Before(f: Func, av: Avail, c: Config): set<Reg>
    requires c.At?
  {
    if c.prev.Some? && c.prev.value in f.blocks && c.prev.value in av then AtEnd(f, av, c.prev.value) else f.params
  }

  /** The relation between the two runs: the same, but without p; and where p may be
      used it agrees with v. */
  ghost predicate Tracks(m: Machine, f: Func, av: Avail, p: Reg, v: Value, c: Config, d: Config) {
    if c.At? then
      && d == c.(regs := c.regs - {p})
      && (p in Before(f, av, c) ==> Synced(m, c.regs, p, v))
    else d == c
  }

  // ----- Inside a block ---------------------------------------------------------------------------------

  lemma EvalForward(m: Machine, regs: Regs, w: Value, a: set<Reg>, p: Reg, v: Value)
    requires Known(w, a) && (p in a ==> Synced(m, regs, p, v)) && v != Use(p)
    ensures Eval(m, regs - {p}, Sub(w, {p}, v)) == Eval(m, regs, w)
  {
  }

  lemma {:induction false} EvalAllForward(m: Machine, regs: Regs, vs: seq<Value>, a: set<Reg>, p: Reg, v: Value)
    requires AllKnown(vs, a) && (p in a ==> Synced(m, regs, p, v)) && v != Use(p)
    ensures EvalAll(m, regs - {p}, SubAll(vs, {p}, v)) == EvalAll(m, regs, vs)
  {
    if vs != [] {
      EvalForward(m, regs, vs[0], a, p, v);
      assert AllKnown(vs[1..], a);
      assert SubAll(vs, {p}, v)[1..] == SubAll(vs[1..], {p}, v);
      EvalAllForward(m, regs, vs[1..], a, p, v);
    }
  }

  function WithoutP(f: Flow, p: Reg): Flow {
    if f.Flow? then f.(regs := f.regs - {p}) else f
  }

  lemma {:induction false} InstsForward(m: Machine, insts: seq<Inst>, f: Flow, a: set<Reg>, p: Reg, v: Value)
    requires InstsKnown(insts, a) && p !in InstDefs(insts) && v != Use(p)
    requires f.Flow? && p in a ==> Synced(m, f.regs, p, v) && Reads(v) !! InstDefs(insts)
    ensures ExecAll(m, SubInsts(insts, {p}, v), WithoutP(f, p)) == WithoutP(ExecAll(m, insts, f), p)
    ensures var f' := ExecAll(m, insts, f); f.Flow? && f'.Flow? && p in a ==> Synced(m, f'.regs, p, v)
    decreases |insts|
  {
    if insts != [] && f.Flow? {
      var i := insts[0];
      EvalAllForward(m, f.regs, i.args, a, p, v);
      assert SubInsts(insts, {p}, v)[1..] == SubInsts(insts[1..], {p}, v);
      var f1 := Exec1(m, i, f);
      if f1.Flow? {
        assert f1.regs - {p} == (f.regs - {p})[i.dst := f1.regs[i.dst]];
      }
      InstsForward(m, insts[1..], f1, a + {i.dst}, p, v);
    }
  }

  /** The values the PHI nodes pick are available, and p agrees with v if it is. */
  ghost predicate PhisReady(m: Machine, f: Func, av: Avail, phis: seq<Phi>, c: Config, p: Reg, v: Value) {
    && c.At? && v != Use(p) && (p in Before(f, av, c) ==> Synced(m, c.regs, p, v))
    && forall j {:trigger PhiReady(f, av, phis[j], c)} :: 0 <= j < |phis| ==> PhiReady(f, av, phis[j], c)
  }

  ghost predicate PhiReady(f: Func, av: Avail, phi: Phi, c: Config)
    requires c.At?
  {
    Known(ValueFrom(phi.incoming, c.prev), Before(f, av, c))
  }

  lemma MinusUpdate(a: Regs, b: Regs, d: Reg, x: int, p: Reg)
    requires a - {p} == b - {p}
    ensures a[d := x] - {p} == b[d := x] - {p}
    ensures d != p ==> a[d := x] - {p} == (a - {p})[d := x]
  {
    forall r | r != p ensures (r in a <==> r in b) && (r in a ==> a[r] == b[r]) {
      assert r in a - {p} <==> r in b - {p};
      if r in a {
        assert (a - {p})[r] == (b - {p})[r];
      }
    }
  }

  lemma LastPhiForward(m: Machine, f: Func, av: Avail, phi: Phi, c: Config, p: Reg, v: Value)
    requires c.At? && v != Use(p) && (p in Before(f, av, c) ==> Synced(m, c.regs, p, v)) && PhiReady(f, av, phi, c)
    ensures Eval(m, c.regs - {p}, ValueFrom(SubIncoming(phi.incoming, {p}, v), c.prev)) == Eval(m, c.regs, ValueFrom(phi.incoming, c.prev))
  {
    SubIncomingFrom(phi.incoming, {p}, v, c.prev, 0);
    EvalForward(m, c.regs, ValueFrom(phi.incoming, c.prev), Before(f, av, c), p, v);
  }

  /** The last PHI node of a replaced list. */
  lemma SubPhisLast(m: Machine, phis: seq<Phi>, from: Option<Label>, regs: Regs, p: Reg, v: Value)
    requires phis != []
    ensures var last := phis[|phis| - 1];
      EvalPhis(m, SubPhis(phis, {p}, v), from, regs)
        == EvalPhis(m, SubPhis(phis[..|phis| - 1], {p}, v), from, regs)[last.dst := Eval(m, regs, ValueFrom(SubIncoming(last.incoming, {p}, v), from))]
  {
    var last := phis[|phis| - 1];
    SubPhisSnoc(phis, {p}, v);
    EvalPhisLast(m, SubPhis(phis, {p}, v), SubPhis(phis[..|phis| - 1], {p}, v), Phi(last.dst, SubIncoming(last.incoming, {p}, v)), from, regs);
  }

  lemma {:induction false} PhisForward(m: Machine, f: Func, av: Avail, phis: seq<Phi>, c: Config, p: Reg, v: Value)
    requires PhisReady(m, f, av, phis, c, p, v) && p !in PhiDefs(phis)
    ensures EvalPhis(m, SubPhis(phis, {p}, v), c.prev, c.regs - {p}) == EvalPhis(m, phis, c.prev, c.regs) - {p}
    decreases |phis|
  {
    if phis != [] {
      var last := |phis| - 1;
      forall j | 0 <= j < last ensures PhiReady(f, av, phis[..last][j], c) {
        assert PhiReady(f, av, phis[j], c);
      }
      PhisForward(m, f, av, phis[..last], c, p, v);
      SubPhisLast(m, phis, c.prev, c.regs - {p}, p, v);
      assert PhiReady(f, av, phis[last], c);
      LastPhiForward(m, f, av, phis[last], c, p, v);
      var before := EvalPhis(m, phis[..last], c.prev, c.regs);
      MinusUpdate(before, before, phis[last].dst, Eval(m, c.regs, ValueFrom(phis[last].incoming, c.prev)), p);
    }
  }

  /** The value a PHI node picks is available where control came from. */
  lemma {:induction false} ValueFromKnown(f: Func, av: Avail, incoming: seq<Incoming>, c: Config)
    requires c.At? && forall i {:trigger IncomingKnown(f, av, incoming[i])} :: 0 <= i < |incoming| ==> IncomingKnown(f, av, incoming[i])
    requires c.prev.None? ==> incoming == []
    ensures Known(ValueFrom(incoming, c.prev), Before(f, av, c))
  {
    if incoming != [] {
      assert IncomingKnown(f, av, incoming[0]);
      forall i | 0 <= i < |incoming[1..]| ensures IncomingKnown(f, av, incoming[1..][i]) {
        assert IncomingKnown(f, av, incoming[i + 1]);
      }
      if c.prev != Some(incoming[0].from) {
        ValueFromKnown(f, av, incoming[1..], c);
      }
    }
  }

  lemma {:induction false} EvalPhisAt(m: Machine, phis: seq<Phi>, from: Option<Label>, regs: Regs, r: Reg)
    ensures r !in PhiDefs(phis) ==> Eval(m, EvalPhis(m, phis, from, regs), Use(r)) == Eval(m, regs, Use(r))
    ensures |phis| > 0 && OncePhis(phis) && r == phis[0].dst
      ==> Eval(m, EvalPhis(m, phis, from, regs), Use(r)) == Eval(m, regs, ValueFrom(phis[0].incoming, from))
    decreases |phis|
  {
    if phis != [] {
      var last := |phis| - 1;
      EvalPhisAt(m, phis[..last], from, regs, r);
      if last > 0 && OncePhis(phis) && r == phis[0].dst {
        PhiDefsFirst(phis[..last]);
      }
    }
  }

  lemma NoEdgeToEntry(f: Func, av: Avail, q: Label)
    requires Wf(f, av)
    ensures Edges(f, q, f.entry) == 0
  {
    if q in f.blocks {
      assert BlockOk(f, av, q);
      var succs := f.blocks[q].term.succs;
      forall i | 0 <= i < |succs| ensures succs[i] != f.entry {
        assert EdgeOk(f, av, q, succs[i]);
      }
      CountIn(succs, f.entry);
    }
  }

  /** Wherever control is, the PHI nodes of its block are ready. */
  lemma BlockPhisReady(m: Machine, f: Func, av: Avail, c: Config, p: Reg, v: Value)
    requires Wf(f, av) && Inv(f, av, c) && c.At? && v != Use(p) && (p in Before(f, av, c) ==> Synced(m, c.regs, p, v))
    ensures PhisReady(m, f, av, f.blocks[c.block].phis, c, p, v)
  {
    var phis := f.blocks[c.block].phis;
    assert BlockOk(f, av, c.block);
    forall j | 0 <= j < |phis| ensures PhiReady(f, av, phis[j], c) {
      assert PhiOk(f, av, c.block, phis[j]);
      if c.prev.None? && phis[j].incoming != [] {
        NoEdgeToEntry(f, av, phis[j].incoming[0].from);
        FromCountIn(phis[j].incoming, 0);
      }
      ValueFromKnown(f, av, phis[j].incoming, c);
    }
  }

  // ----- The two runs ---------------------------------------------------------------------------------

  /** After the PHI nodes of its block, p agrees with v wherever it may be used. */
  lemma SyncedAfterPhis(m: Machine, f: Func, av: Avail, bb: Label, pred: Label, p: Reg, v: Value, c: Config)
    requires Copies(f, av, bb, pred, p, v) && Inv(f, av, c) && c.At? && Quiet(f, av, bb, p, v, c)
    requires p in Before(f, av, c) ==> Synced(m, c.regs, p, v)
    ensures var b := f.blocks[c.block];
      p in av[c.block] + PhiDefs(b.phis) ==> Synced(m, EvalPhis(m, b.phis, c.prev, c.regs), p, v)
  {
    var b := f.blocks[c.block];
    InvAvail(f, av, c);
    PWrittenInBb(f, av, bb, pred, p, v, c.block);
    EvalPhisAt(m, b.phis, c.prev, c.regs, p);
    if v.Use? {
      EvalPhisAt(m, b.phis, c.prev, c.regs, v.r);
    }
    assert BlockOk(f, av, c.block);
    if c.block == bb {
      AtBb(f, av, bb, pred, p, v, c);
      assert ValueFrom([Incoming(v, pred)], Some(pred)) == v;
    }
  }

  lemma BodyForward(m: Machine, f: Func, av: Avail, bb: Label, pred: Label, p: Reg, v: Value, c: Config)
    requires Copies(f, av, bb, pred, p, v) && Inv(f, av, c) && c.At? && Quiet(f, av, bb, p, v, c)
    requires p in Before(f, av, c) ==> Synced(m, c.regs, p, v)
    ensures var flow := Body(m, f.blocks[c.block], c);
      && Body(m, ForwardPhi(f, bb).blocks[c.block], c.(regs := c.regs - {p})) == WithoutP(flow, p)
      && (flow.Flow? && p in AtEnd(f, av, c.block) ==> Synced(m, flow.regs, p, v))
  {
    var b := f.blocks[c.block];
    var b' := Trimmed(f, bb, c.block);
    assert BlockOk(f, av, c.block);
    ForwardBlock(f, av, bb, pred, p, v, c.block);
    PWrittenInBb(f, av, bb, pred, p, v, c.block);
    BlockPhisReady(m, f, av, c, p, v);
    PhisTrimmed(m, f, av, bb, pred, p, v, c);
    SyncedAfterPhis(m, f, av, bb, pred, p, v, c);
    var regs1 := EvalPhis(m, b.phis, c.prev, c.regs);
    InstsForward(m, b.insts, Flow(regs1, c.mem, c.out), av[c.block] + PhiDefs(b.phis), p, v);
  }

  lemma PhisTrimmed(m: Machine, f: Func, av: Avail, bb: Label, pred: Label, p: Reg, v: Value, c: Config)
    requires Copies(f, av, bb, pred, p, v) && c.At? && c.block in f.blocks && PhisReady(m, f, av, f.blocks[c.block].phis, c, p, v)
    ensures EvalPhis(m, SubPhis(Trimmed(f, bb, c.block).phis, {p}, v), c.prev, c.regs - {p})
         == EvalPhis(m, f.blocks[c.block].phis, c.prev, c.regs) - {p}
  {
    var phis := f.blocks[c.block].phis;
    var phis' := Trimmed(f, bb, c.block).phis;
    PWrittenInBb(f, av, bb, pred, p, v, c.block);
    if c.block == bb {
      forall j | 0 <= j < |phis'| ensures PhiReady(f, av, phis'[j], c) {
        assert PhiReady(f, av, phis[j + 1], c);
      }
      PhisForward(m, f, av, phis', c, p, v);
      FirstPhiOnly(m, phis, c.prev, c.regs);
    } else {
      PhisForward(m, f, av, phis, c, p, v);
    }
  }

  /** The first PHI node affects only its own register. */
  lemma {:induction false} FirstPhiOnly(m: Machine, phis: seq<Phi>, from: Option<Label>, regs: Regs)
    requires |phis| > 0
    ensures EvalPhis(m, phis, from, regs) - {phis[0].dst} == EvalPhis(m, phis[1..], from, regs) - {phis[0].dst}
    decreases |phis|
  {
    var last := |phis| - 1;
    if last > 0 {
      FirstPhiOnly(m, phis[..last], from, regs);
      assert phis[..last][1..] == phis[1..][..last - 1] && phis[1..][last - 1] == phis[last];
      MinusUpdate(EvalPhis(m, phis[..last], from, regs), EvalPhis(m, phis[1..][..last - 1], from, regs),
                  phis[last].dst, Eval(m, regs, ValueFrom(phis[last].incoming, from)), phis[0].dst);
    } else {
      assert phis[..0] == [] && phis[1..] == [];
    }
  }

  lemma LeaveForward(m: Machine, block: Label, t: Term, f: Flow, a: set<Reg>, p: Reg, v: Value)
    requires KindKnown(t.kind, a) && v != Use(p) && (f.Flow? && p in a ==> Synced(m, f.regs, p, v))
    ensures Leave(m, block, SubTerm(t, {p}, v), WithoutP(f, p)) ==
      var d := Leave(m, block, t, f); if d.At? then d.(regs := d.regs - {p}) else d
  {
    if f.Flow? {
      match t.kind
      case CondJump(w) => EvalForward(m, f.regs, w, a, p, v);
      case SwitchOn(w, _) => EvalForward(m, f.regs, w, a, p, v);
      case Return(w) => EvalForward(m, f.regs, w, a, p, v);
      case _ =>
    }
  }

  lemma TracksStep(m: Machine, f: Func, av: Avail, bb: Label, pred: Label, p: Reg, v: Value, c: Config, d: Config)
    requires Copies(f, av, bb, pred, p, v) && Inv(f, av, c) && Quiet(f, av, bb, p, v, c) && Tracks(m, f, av, p, v, c, d)
    ensures Tracks(m, f, av, p, v, Step(m, f, c), Step(m, ForwardPhi(f, bb), d))
  {
    if c.At? {
      var b := f.blocks[c.block];
      var flow := Body(m, b, c);
      BodyForward(m, f, av, bb, pred, p, v, c);
      assert BlockOk(f, av, c.block);
      ForwardBlock(f, av, bb, pred, p, v, c.block);
      LeaveForward(m, c.block, b.term, flow, AtEnd(f, av, c.block), p, v);
      LeaveTracks(m, f, av, p, v, c.block, flow);
    }
  }

  lemma LeaveTracks(m: Machine, f: Func, av: Avail, p: Reg, v: Value, block: Label, flow: Flow)
    requires block in f.blocks && block in av
    requires flow.Flow? && p in AtEnd(f, av, block) ==> Synced(m, flow.regs, p, v)
    ensures var c := Leave(m, block, f.blocks[block].term, flow);
      Tracks(m, f, av, p, v, c, if c.At? then c.(regs := c.regs - {p}) else c)
  {
  }

  lemma QuietRun(m: Machine, f: Func, av: Avail, bb: Label, pred: Label, p: Reg, v: Value, n: nat, regs: Regs, mem: Memory)
    requires Copies(f, av, bb, pred, p, v) && regs.Keys == f.params
    ensures Quiet(f, av, bb, p, v, Run(m, f, n, Start(f, regs, mem)))
  {
    if BothFirst(f, av, bb, p, v) {
      CircularRun(m, f, av, bb, pred, p, v, n, regs, mem);
      InvRun(m, f, av, n, regs, mem);
      CircularStep(m, f, av, bb, pred, p, v, Run(m, f, n, Start(f, regs, mem)));
    }
  }

  ghost predicate TracksAt(m: Machine, f: Func, g: Func, av: Avail, p: Reg, v: Value, n: nat, regs: Regs, mem: Memory) {
    Tracks(m, f, av, p, v, Run(m, f, n, Start(f, regs, mem)), Run(m, g, n, Start(g, regs, mem)))
  }

  lemma TracksNext(m: Machine, f: Func, av: Avail, bb: Label, pred: Label, p: Reg, v: Value, n: nat, regs: Regs, mem: Memory)
    requires Copies(f, av, bb, pred, p, v) && regs.Keys == f.params && TracksAt(m, f, ForwardPhi(f, bb), av, p, v, n, regs, mem)
    ensures TracksAt(m, f, ForwardPhi(f, bb), av, p, v, n + 1, regs, mem)
  {
    var c := Run(m, f, n, Start(f, regs, mem));
    var d := Run(m, ForwardPhi(f, bb), n, Start(ForwardPhi(f, bb), regs, mem));
    assert Inv(f, av, c) by { InvRun(m, f, av, n, regs, mem); }
    assert Quiet(f, av, bb, p, v, c) by { QuietRun(m, f, av, bb, pred, p, v, n, regs, mem); }
    TracksStep(m, f, av, bb, pred, p, v, c, d);
  }

  lemma {:induction false} TracksRun(m: Machine, f: Func, g: Func, av: Avail, bb: Label, pred: Label, p: Reg, v: Value, n: nat, regs: Regs, mem: Memory)
    requires Copies(f, av, bb, pred, p, v) && regs.Keys == f.params && g == ForwardPhi(f, bb)
    ensures TracksAt(m, f, g, av, p, v, n, regs, mem)
  {
    if n > 0 {
      TracksRun(m, f, g, av, bb, pred, p, v, n - 1, regs, mem);
      TracksNext(m, f, av, bb, pred, p, v, n - 1, regs, mem);
    } else {
      TracksStart(m, f, av, bb, pred, p, v, regs, mem);
    }
  }

  lemma TracksStart(m: Machine, f: Func, av: Avail, bb: Label, pred: Label, p: Reg, v: Value, regs: Regs, mem: Memory)
    requires Copies(f, av, bb, pred, p, v) && regs.Keys == f.params
    ensures TracksAt(m, f, ForwardPhi(f, bb), av, p, v, 0, regs, mem)
  {
    PWrittenInBb(f, av, bb, pred, p, v, bb);
    assert regs - {p} == regs;
  }

  /** Forwarding a copy keeps the function well-formed and changes nothing observable. */
  lemma ForwardCorrect(f: Func, av: Avail, bb: Label, pred: Label, p: Reg, v: Value) returns (av': Avail)
    requires Copies(f, av, bb, pred, p, v)
    ensures Wf(ForwardPhi(f, bb), av') && Equivalent(f, ForwardPhi(f, bb))
  {
    var g := ForwardPhi(f, bb);
    av' := Forwarded(av, bb, p, v);
    ForwardWf(f, av, bb, pred, p, v);
    forall m, regs: Regs, mem, n: nat | regs.Keys == f.params
      ensures ShownBy(m, f, g, regs, mem, n) && ShownBy(m, g, f, regs, mem, n)
    {
      TracksRun(m, f, g, av, bb, pred, p, v, n, regs, mem);
      assert Shows(Run(m, f, n, Start(f, regs, mem)), Run(m, g, n, Start(g, regs, mem)));
      assert Shows(Run(m, g, n, Start(g, regs, mem)), Run(m, f, n, Start(f, regs, mem)));
    }
  }
}
