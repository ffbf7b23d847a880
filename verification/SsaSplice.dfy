/** Appending a block without PHI nodes to its only predecessor, when it is that block's
    only successor. */
module SsaSplice {
  import opened Wrappers
  import opened SsaFunction
  import opened SsaRewrite
  import opened SsaRuns
  import opened SsaDead

  /** One edge leads to bb, it comes from pred, and it is pred's only one. */
  ghost predicate SoleEdge(f: Func, bb: Label, pred: Label) {
    && bb in f.blocks && pred in f.blocks && pred != bb && bb != f.entry
    && (forall q {:trigger Edges(f, q, bb)} :: Edges(f, q, bb) == if q == pred then 1 else 0)
    && f.blocks[pred].term.succs == [bb] && !f.blocks[pred].term.kind.Erased?
  }

  function Rename(l: Label, bb: Label, pred: Label): Label {
    if l == bb then pred else l
  }

  function RenameIncoming(incoming: seq<Incoming>, bb: Label, pred: Label): (r: seq<Incoming>)
    ensures |r| == |incoming|
    ensures forall k :: 0 <= k < |incoming| ==> r[k] == Incoming(incoming[k].value, Rename(incoming[k].from, bb, pred))
  {
    if incoming == [] then []
    else [Incoming(incoming[0].value, Rename(incoming[0].from, bb, pred))] + RenameIncoming(incoming[1..], bb, pred)
  }

  function RenamePhis(phis: seq<Phi>, bb: Label, pred: Label): (r: seq<Phi>)
    ensures |r| == |phis|
    ensures forall k :: 0 <= k < |phis| ==> r[k] == Phi(phis[k].dst, RenameIncoming(phis[k].incoming, bb, pred))
  {
    if phis == [] then [] else [Phi(phis[0].dst, RenameIncoming(phis[0].incoming, bb, pred))] + RenamePhis(phis[1..], bb, pred)
  }

  /** BB.replaceAllUsesWith(Pred): PHI nodes name pred instead of bb. */
  function RenameBlocks(blocks: map<Label, Block>, bb: Label, pred: Label): map<Label, Block> {
    map l | l in blocks :: blocks[l].(phis := RenamePhis(blocks[l].phis, bb, pred))
  }

  /** pred's instructions and bb's, with bb's terminator. */
  function Joined(f: Func, bb: Label, pred: Label): Block
    requires bb in f.blocks && pred in f.blocks
  {
    Block(f.blocks[pred].phis, f.blocks[pred].insts + f.blocks[bb].insts, f.blocks[bb].term)
  }

  function Splice(f: Func, bb: Label, pred: Label): Func
    requires bb in f.blocks && pred in f.blocks
  {
    f.(blocks := RenameBlocks(f.blocks[pred := Joined(f, bb, pred)] - {bb}, bb, pred))
  }

  ghost predicate Spliceable(f: Func, av: Avail, bb: Label, pred: Label) {
    Wf(f, av) && SoleEdge(f, bb, pred) && f.blocks[bb].phis == []
  }

  // ----- Well-formedness ----------------------------------------------------------------------

  lemma {:induction false} RenamePhisDefs(phis: seq<Phi>, bb: Label, pred: Label)
    ensures PhiDefs(RenamePhis(phis, bb, pred)) == PhiDefs(phis) && OncePhis(RenamePhis(phis, bb, pred)) == OncePhis(phis)
  {
    if phis != [] {
      var last := |phis| - 1;
      assert RenamePhis(phis, bb, pred)[..last] == RenamePhis(phis[..last], bb, pred);
      RenamePhisDefs(phis[..last], bb, pred);
    }
  }

  lemma {:induction false} RenameFromCount(incoming: seq<Incoming>, bb: Label, pred: Label, l: Label)
    requires pred != bb
    ensures FromCount(RenameIncoming(incoming, bb, pred), l)
      == if l == bb then 0 else FromCount(incoming, l) + if l == pred then FromCount(incoming, bb) else 0
  {
    if incoming != [] {
      assert RenameIncoming(incoming, bb, pred)[1..] == RenameIncoming(incoming[1..], bb, pred);
      RenameFromCount(incoming[1..], bb, pred, l);
    }
  }

  lemma {:induction false} InstDefsApp(a: seq<Inst>, b: seq<Inst>)
    ensures InstDefs(a + b) == InstDefs(a) + InstDefs(b)
    ensures OnceInsts(a) && OnceInsts(b) && InstDefs(a) !! InstDefs(b) ==> OnceInsts(a + b)
  {
    if a == [] {
      assert a + b == b;
    } else {
      assert (a + b)[1..] == a[1..] + b;
      InstDefsApp(a[1..], b);
    }
  }

  lemma {:induction false} InstsKnownApp(a: seq<Inst>, b: seq<Inst>, s: set<Reg>)
    requires InstsKnown(a, s) && InstsKnown(b, s + InstDefs(a))
    ensures InstsKnown(a + b, s)
  {
    if a == [] {
      assert a + b == b && s + InstDefs(a) == s;
    } else {
      assert (a + b)[1..] == a[1..] + b;
      assert s + InstDefs(a) == (s + {a[0].dst}) + InstDefs(a[1..]);
      InstsKnownApp(a[1..], b, s + {a[0].dst});
    }
  }

  /** A block of the spliced function, before incoming blocks are renamed. */
  function Raw(f: Func, bb: Label, pred: Label, k: Label): Block
    requires bb in f.blocks && pred in f.blocks && k in f.blocks
  {
    if k == pred then Joined(f, bb, pred) else f.blocks[k]
  }

  lemma RawFacts(f: Func, av: Avail, bb: Label, pred: Label, k: Label)
    requires Spliceable(f, av, bb, pred) && k in f.blocks && k != bb
    ensures var b := Raw(f, bb, pred, k);
      && Once(b) && ShapeOk(b.term) && Defs(b) !! f.params
      && Defs(b) == Defs(f.blocks[k]) + (if k == pred then Defs(f.blocks[bb]) else {})
      && InstsKnown(b.insts, av[k] + PhiDefs(b.phis)) && KindKnown(b.term.kind, av[k] + Defs(b))
  {
    assert BlockOk(f, av, k);
    if k == pred {
      assert BlockOk(f, av, bb) && Apart(f, bb, pred);
      InstDefsApp(f.blocks[pred].insts, f.blocks[bb].insts);
      PredAvail(f, av, bb, pred);
      var a := av[pred] + PhiDefs(f.blocks[pred].phis);
      assert a + InstDefs(f.blocks[pred].insts) == AtEnd(f, av, pred);
      InstsKnownMore(f.blocks[bb].insts, av[bb] + PhiDefs([]), a + InstDefs(f.blocks[pred].insts));
      InstsKnownApp(f.blocks[pred].insts, f.blocks[bb].insts, a);
    }
  }

  lemma PredAvail(f: Func, av: Avail, bb: Label, pred: Label)
    requires Wf(f, av) && SoleEdge(f, bb, pred)
    ensures av[bb] <= AtEnd(f, av, pred)
  {
    assert BlockOk(f, av, pred) && EdgeOk(f, av, pred, f.blocks[pred].term.succs[0]);
  }

  lemma SplicedBlock(f: Func, av: Avail, bb: Label, pred: Label, k: Label)
    requires Spliceable(f, av, bb, pred) && k in f.blocks && k != bb
    ensures var g := Splice(f, bb, pred);
      && g.blocks.Keys == f.blocks.Keys - {bb}
      && g.blocks[k] == Raw(f, bb, pred, k).(phis := RenamePhis(f.blocks[k].phis, bb, pred))
      && PhiDefs(g.blocks[k].phis) == PhiDefs(f.blocks[k].phis) && Defs(g.blocks[k]) == Defs(Raw(f, bb, pred, k))
      && Once(g.blocks[k])
  {
    RawFacts(f, av, bb, pred, k);
    SplicedShape(f, bb, pred, k);
    RenamedDefs(Raw(f, bb, pred, k), bb, pred);
  }

  lemma SplicedShape(f: Func, bb: Label, pred: Label, k: Label)
    requires bb in f.blocks && pred in f.blocks && k in f.blocks && k != bb && pred != bb
    ensures var g := Splice(f, bb, pred);
      && g.blocks.Keys == f.blocks.Keys - {bb}
      && g.blocks[k] == Raw(f, bb, pred, k).(phis := RenamePhis(f.blocks[k].phis, bb, pred))
      && Raw(f, bb, pred, k).phis == f.blocks[k].phis
  {
  }

  lemma RenamedDefs(b: Block, bb: Label, pred: Label)
    ensures var b' := b.(phis := RenamePhis(b.phis, bb, pred));
      PhiDefs(b'.phis) == PhiDefs(b.phis) && Defs(b') == Defs(b) && Once(b') == Once(b)
  {
    RenamePhisDefs(b.phis, bb, pred);
  }

  lemma SplicedEdges(f: Func, av: Avail, bb: Label, pred: Label, p: Label, k: Label)
    requires Spliceable(f, av, bb, pred) && k != bb
    ensures Edges(Splice(f, bb, pred), p, k) == if p == bb then 0 else if p == pred then Edges(f, bb, k) else Edges(f, p, k)
    ensures Edges(f, pred, k) == 0
  {
    if p in f.blocks && p != bb {
      SplicedBlock(f, av, bb, pred, p);
    }
    CountIn(f.blocks[pred].term.succs, k);
  }

  lemma SplicedPhi(f: Func, av: Avail, bb: Label, pred: Label, k: Label, phi: Phi)
    requires Spliceable(f, av, bb, pred) && k != bb && PhiOk(f, av, k, phi)
    ensures PhiOk(Splice(f, bb, pred), av - {bb}, k, Phi(phi.dst, RenameIncoming(phi.incoming, bb, pred)))
  {
    var g := Splice(f, bb, pred);
    var incoming' := RenameIncoming(phi.incoming, bb, pred);
    forall p ensures FromCount(incoming', p) == Edges(g, p, k) {
      RenameFromCount(phi.incoming, bb, pred, p);
      SplicedEdges(f, av, bb, pred, p, k);
      assert FromCount(phi.incoming, p) == Edges(f, p, k) && FromCount(phi.incoming, bb) == Edges(f, bb, k);
    }
    forall i, j | 0 <= i < |incoming'| && 0 <= j < |incoming'| ensures Agree(incoming'[i], incoming'[j]) {
      NotFromPred(f, av, bb, pred, k, phi, i);
      NotFromPred(f, av, bb, pred, k, phi, j);
      assert Agree(phi.incoming[i], phi.incoming[j]);
    }
    forall i | 0 <= i < |incoming'| ensures IncomingKnown(g, av - {bb}, incoming'[i]) {
      assert IncomingKnown(f, av, phi.incoming[i]);
      SplicedAtEnd(f, av, bb, pred, phi.incoming[i].from);
    }
  }

  /** Nothing but bb has an entry from pred. */
  lemma NotFromPred(f: Func, av: Avail, bb: Label, pred: Label, k: Label, phi: Phi, i: nat)
    requires Spliceable(f, av, bb, pred) && k != bb && PhiOk(f, av, k, phi) && i < |phi.incoming|
    ensures phi.incoming[i].from != pred
  {
    SplicedEdges(f, av, bb, pred, pred, k);
    assert FromCount(phi.incoming, pred) == Edges(f, pred, k);
    FromCountIn(phi.incoming, i);
  }

  /** What is available at the end of a block is still available there, or at the end of pred. */
  lemma SplicedAtEnd(f: Func, av: Avail, bb: Label, pred: Label, p: Label)
    requires Spliceable(f, av, bb, pred) && p in f.blocks
    ensures var q := Rename(p, bb, pred);
      q in Splice(f, bb, pred).blocks && q in av - {bb} && AtEnd(f, av, p) <= AtEnd(Splice(f, bb, pred), av - {bb}, q)
  {
    var q := Rename(p, bb, pred);
    SplicedBlock(f, av, bb, pred, q);
    RawFacts(f, av, bb, pred, q);
    PredAvail(f, av, bb, pred);
  }

  lemma SplicedOk(f: Func, av: Avail, bb: Label, pred: Label, k: Label)
    requires Spliceable(f, av, bb, pred) && k in f.blocks && k != bb
    ensures k in Splice(f, bb, pred).blocks && BlockOk(Splice(f, bb, pred), av - {bb}, k)
  {
    var g := Splice(f, bb, pred);
    SplicedBlock(f, av, bb, pred, k);
    RawFacts(f, av, bb, pred, k);
    SplicedSuccs(f, av, bb, pred, k);
    assert BlockOk(f, av, k);
    forall j | 0 <= j < |g.blocks[k].phis| ensures PhiOk(g, av - {bb}, k, g.blocks[k].phis[j]) {
      assert PhiOk(f, av, k, f.blocks[k].phis[j]);
      SplicedPhi(f, av, bb, pred, k, f.blocks[k].phis[j]);
    }
  }

  lemma SplicedSuccs(f: Func, av: Avail, bb: Label, pred: Label, k: Label)
    requires Spliceable(f, av, bb, pred) && k in f.blocks && k != bb
    ensures k in Splice(f, bb, pred).blocks && EdgesOk(Splice(f, bb, pred), av - {bb}, k, Splice(f, bb, pred).blocks[k].term.succs)
  {
    var g := Splice(f, bb, pred);
    SplicedBlock(f, av, bb, pred, k);
    var src := if k == pred then bb else k;
    var succs := f.blocks[src].term.succs;
    SplicedAtEnd(f, av, bb, pred, src);
    forall j | 0 <= j < |succs| ensures EdgeOk(g, av - {bb}, k, succs[j]) {
      assert BlockOk(f, av, src) && EdgeOk(f, av, src, succs[j]);
      CountIn(succs, succs[j]);
      assert Edges(f, src, bb) == 0;
      CountIn(succs, bb);
    }
  }

  lemma SpliceWf(f: Func, av: Avail, bb: Label, pred: Label)
    requires Spliceable(f, av, bb, pred)
    ensures Wf(Splice(f, bb, pred), av - {bb})
  {
    var g := Splice(f, bb, pred);
    SplicedBlock(f, av, bb, pred, pred);
    forall k | k in g.blocks ensures BlockOk(g, av - {bb}, k) {
      SplicedOk(f, av, bb, pred, k);
    }
    forall k, j | k in g.blocks && j in g.blocks ensures Apart(g, k, j) {
      assert Apart(f, k, j) && Apart(f, bb, k) && Apart(f, bb, j);
      SplicedBlock(f, av, bb, pred, k);
      SplicedBlock(f, av, bb, pred, j);
      RawFacts(f, av, bb, pred, k);
      RawFacts(f, av, bb, pred, j);
    }
  }

  // ----- Behaviour ---------------------------------------------------------------------------------

  function RenamePrev(prev: Option<Label>, bb: Label, pred: Label): Option<Label> {
    if prev == Some(bb) then Some(pred) else prev
  }

  function RenameConfig(c: Config, bb: Label, pred: Label): Config {
    if c.At? then c.(prev := RenamePrev(c.prev, bb, pred)) else c
  }

  predicate NoneFrom(incoming: seq<Incoming>, l: Label) {
    forall i :: 0 <= i < |incoming| ==> incoming[i].from != l
  }

  lemma {:induction false} RenamedValue(incoming: seq<Incoming>, bb: Label, pred: Label, prev: Option<Label>)
    requires prev != Some(pred) && NoneFrom(incoming, pred)
    ensures ValueFrom(RenameIncoming(incoming, bb, pred), RenamePrev(prev, bb, pred)) == ValueFrom(incoming, prev)
  {
    if incoming != [] {
      assert incoming[0].from != pred;
      assert RenameIncoming(incoming, bb, pred)[1..] == RenameIncoming(incoming[1..], bb, pred);
      RenamedValue(incoming[1..], bb, pred, prev);
    }
  }

  ghost predicate PhisNoneFrom(phis: seq<Phi>, l: Label) {
    forall j {:trigger NoneFrom(phis[j].incoming, l)} :: 0 <= j < |phis| ==> NoneFrom(phis[j].incoming, l)
  }

  /** The last PHI node of a renamed list. */
  lemma RenamePhisLast(m: Machine, phis: seq<Phi>, bb: Label, pred: Label, prev: Option<Label>, regs: Regs)
    requires phis != []
    ensures var last := phis[|phis| - 1];
      EvalPhis(m, RenamePhis(phis, bb, pred), prev, regs)
        == EvalPhis(m, RenamePhis(phis[..|phis| - 1], bb, pred), prev, regs)[last.dst := Eval(m, regs, ValueFrom(RenameIncoming(last.incoming, bb, pred), prev))]
  {
    assert RenamePhis(phis, bb, pred)[..|phis| - 1] == RenamePhis(phis[..|phis| - 1], bb, pred);
  }

  lemma {:induction false} RenamedPhis(m: Machine, phis: seq<Phi>, bb: Label, pred: Label, prev: Option<Label>, regs: Regs)
    requires prev != Some(pred) && PhisNoneFrom(phis, pred)
    ensures EvalPhis(m, RenamePhis(phis, bb, pred), RenamePrev(prev, bb, pred), regs) == EvalPhis(m, phis, prev, regs)
  {
    if phis != [] {
      var last := |phis| - 1;
      assert NoneFrom(phis[last].incoming, pred);
      forall j | 0 <= j < last ensures NoneFrom(phis[..last][j].incoming, pred) {
        assert NoneFrom(phis[j].incoming, pred);
      }
      RenamePhisLast(m, phis, bb, pred, RenamePrev(prev, bb, pred), regs);
      RenamedPhis(m, phis[..last], bb, pred, prev, regs);
      RenamedValue(phis[last].incoming, bb, pred, prev);
    }
  }

  /** Outside bb, control never comes from pred. */
  lemma NotPrevPred(f: Func, av: Avail, bb: Label, pred: Label, c: Config)
    requires Spliceable(f, av, bb, pred) && Inv(f, av, c) && c.At? && c.block != bb
    ensures c.prev != Some(pred) && PhisNoneFrom(f.blocks[c.block].phis, pred)
  {
    SplicedEdges(f, av, bb, pred, pred, c.block);
    assert BlockOk(f, av, c.block);
    var phis := f.blocks[c.block].phis;
    forall j | 0 <= j < |phis| ensures NoneFrom(phis[j].incoming, pred) {
      assert PhiOk(f, av, c.block, phis[j]);
      forall i | 0 <= i < |phis[j].incoming| ensures phis[j].incoming[i].from != pred {
        NotFromPred(f, av, bb, pred, c.block, phis[j], i);
      }
    }
  }

  lemma BodySpliced(m: Machine, f: Func, av: Avail, bb: Label, pred: Label, c: Config)
    requires Spliceable(f, av, bb, pred) && Inv(f, av, c) && c.At? && c.block != bb
    ensures c.block in Splice(f, bb, pred).blocks
    ensures Body(m, Splice(f, bb, pred).blocks[c.block], RenameConfig(c, bb, pred))
      == var flow := Body(m, f.blocks[c.block], c); if c.block == pred then ExecAll(m, f.blocks[bb].insts, flow) else flow
  {
    SplicedBlock(f, av, bb, pred, c.block);
    NotPrevPred(f, av, bb, pred, c);
    var phis := f.blocks[c.block].phis;
    RenamedPhis(m, phis, bb, pred, c.prev, c.regs);
    ExecAllApp(m, f.blocks[c.block].insts, f.blocks[bb].insts, Flow(EvalPhis(m, phis, c.prev, c.regs), c.mem, c.out));
  }

  /** Leaving a block other than pred, control does not come to bb. */
  lemma NotToBb(m: Machine, f: Func, av: Avail, bb: Label, pred: Label, c: Config)
    requires Spliceable(f, av, bb, pred) && Inv(f, av, c) && c.At? && c.block != pred
    ensures Step(m, f, c).At? ==> Step(m, f, c).block != bb
  {
    InvStep(m, f, av, c);
    var d := Step(m, f, c);
    if d.At? {
      assert d.prev == Some(c.block) && Edges(f, c.block, d.block) > 0;
      assert Edges(f, c.block, bb) == 0;
    }
  }

  /** Outside pred, one block of the spliced function is one block of the original. */
  lemma OtherStep(m: Machine, f: Func, av: Avail, bb: Label, pred: Label, c: Config)
    requires Spliceable(f, av, bb, pred) && Inv(f, av, c) && (c.At? ==> c.block != bb && c.block != pred)
    ensures Step(m, Splice(f, bb, pred), RenameConfig(c, bb, pred)) == RenameConfig(Step(m, f, c), bb, pred)
  {
    if c.At? {
      SplicedBlock(f, av, bb, pred, c.block);
      BodySpliced(m, f, av, bb, pred, c);
      LeaveRenamed(m, c.block, c.block, f.blocks[c.block].term, Body(m, f.blocks[c.block], c), bb, pred);
    }
  }

  lemma LeaveRenamed(m: Machine, from: Label, from': Label, t: Term, flow: Flow, bb: Label, pred: Label)
    requires from' == Rename(from, bb, pred)
    ensures Leave(m, from', t, flow) == RenameConfig(Leave(m, from, t, flow), bb, pred)
  {
  }

  /** Leaving pred, control comes to bb unless the program ends: the terminator is a jump,
      or a switch without cases. */
  lemma LeavePred(m: Machine, f: Func, av: Avail, bb: Label, pred: Label, flow: Flow)
    requires Spliceable(f, av, bb, pred)
    ensures Leave(m, pred, f.blocks[pred].term, flow)
      == if flow.Flow? then At(bb, Some(pred), flow.regs, flow.mem, flow.out) else Ended(flow.out)
  {
    assert BlockOk(f, av, pred);
    var t := f.blocks[pred].term;
    assert t.kind.Jump? || t.kind == SwitchOn(t.kind.subject, []);
  }

  /** At pred, one block of the spliced function is two of the original: the second is bb. */
  lemma PredStep(m: Machine, f: Func, av: Avail, bb: Label, pred: Label, c: Config)
    requires Spliceable(f, av, bb, pred) && Inv(f, av, c) && c.At? && c.block == pred
    ensures var c1 := Step(m, f, c);
      var c2 := Step(m, f, c1);
      Step(m, Splice(f, bb, pred), RenameConfig(c, bb, pred)) == RenameConfig(c2, bb, pred) && Shows(c1, c2)
    ensures var c1 := Step(m, f, c); c1.At? ==> c1.block == bb
  {
    var flow := Body(m, f.blocks[pred], c);
    var flow2 := ExecAll(m, f.blocks[bb].insts, flow);
    PredFirst(m, f, av, bb, pred, c, flow);
    PredSpliced(m, f, av, bb, pred, c, flow2);
    ExecAllKeys(m, f.blocks[bb].insts, flow);
    LeaveRenamed(m, bb, pred, f.blocks[bb].term, flow2, bb, pred);
    SecondOf(m, f, bb, pred, flow, flow2, Step(m, f, c));
  }

  /** After the first block the second one runs, or the program is over. */
  lemma SecondOf(m: Machine, f: Func, bb: Label, pred: Label, flow: Flow, flow2: Flow, c1: Config)
    requires bb in f.blocks && f.blocks[bb].phis == [] && flow2 == ExecAll(m, f.blocks[bb].insts, flow)
    requires c1 == if flow.Flow? then At(bb, Some(pred), flow.regs, flow.mem, flow.out) else Ended(flow.out)
    ensures Step(m, f, c1) == Leave(m, bb, f.blocks[bb].term, flow2)
  {
    if flow.Flow? {
      SecondStep(m, f, bb, pred, flow, flow2);
    } else {
      assert flow2 == flow;
    }
  }

  lemma PredFirst(m: Machine, f: Func, av: Avail, bb: Label, pred: Label, c: Config, flow: Flow)
    requires Spliceable(f, av, bb, pred) && c.At? && c.block == pred && flow == Body(m, f.blocks[pred], c)
    ensures Step(m, f, c) == if flow.Flow? then At(bb, Some(pred), flow.regs, flow.mem, flow.out) else Ended(flow.out)
  {
    LeavePred(m, f, av, bb, pred, flow);
  }

  /** The second block, which has no PHI nodes. */
  lemma SecondStep(m: Machine, f: Func, bb: Label, pred: Label, flow: Flow, flow2: Flow)
    requires bb in f.blocks && f.blocks[bb].phis == [] && flow.Flow? && flow2 == ExecAll(m, f.blocks[bb].insts, flow)
    ensures Step(m, f, At(bb, Some(pred), flow.regs, flow.mem, flow.out)) == Leave(m, bb, f.blocks[bb].term, flow2)
  {
    assert Body(m, f.blocks[bb], At(bb, Some(pred), flow.regs, flow.mem, flow.out)) == flow2;
  }

  lemma PredSpliced(m: Machine, f: Func, av: Avail, bb: Label, pred: Label, c: Config, flow2: Flow)
    requires Spliceable(f, av, bb, pred) && Inv(f, av, c) && c.At? && c.block == pred
    requires flow2 == ExecAll(m, f.blocks[bb].insts, Body(m, f.blocks[pred], c))
    ensures Step(m, Splice(f, bb, pred), RenameConfig(c, bb, pred)) == Leave(m, pred, f.blocks[bb].term, flow2)
  {
    SplicedBlock(f, av, bb, pred, pred);
    BodySpliced(m, f, av, bb, pred, c);
  }

  /** What shows after n blocks shows after one more. */
  ghost predicate ShownNext(m: Machine, f: Func, regs: Regs, mem: Memory, n: nat) {
    Shows(Run(m, f, n, Start(f, regs, mem)), Run(m, f, n + 1, Start(f, regs, mem)))
  }

  /** After n blocks of the spliced function, the original is at a corresponding point
      after some number of blocks, and it shows all it has shown on the way. */
  ghost predicate Meets(m: Machine, f: Func, g: Func, bb: Label, pred: Label, regs: Regs, mem: Memory, k: nat, n: nat) {
    var c := Run(m, f, n, Start(f, regs, mem));
    Run(m, g, k, Start(g, regs, mem)) == RenameConfig(c, bb, pred) && (c.At? ==> c.block != bb)
  }

  /** Both steps at once, on configurations. */
  lemma PairStep(m: Machine, f: Func, av: Avail, g: Func, bb: Label, pred: Label, c: Config)
    requires Spliceable(f, av, bb, pred) && g == Splice(f, bb, pred) && Inv(f, av, c) && (c.At? ==> c.block != bb)
    ensures var c1 := Step(m, f, c);
      var c2 := Step(m, f, c1);
      var d := Step(m, g, RenameConfig(c, bb, pred));
      if c.At? && c.block == pred then d == RenameConfig(c2, bb, pred) && (c2.At? ==> c2.block != bb) && Shows(c1, c2)
      else d == RenameConfig(c1, bb, pred) && (c1.At? ==> c1.block != bb)
  {
    if c.At? && c.block == pred {
      PredStep(m, f, av, bb, pred, c);
      var c1 := Step(m, f, c);
      if c1.At? {
        InvStep(m, f, av, c);
        NotToBb(m, f, av, bb, pred, c1);
      }
    } else {
      OtherStep(m, f, av, bb, pred, c);
      if c.At? {
        NotToBb(m, f, av, bb, pred, c);
      }
    }
  }

  lemma MeetsStep(m: Machine, f: Func, av: Avail, g: Func, bb: Label, pred: Label, regs: Regs, mem: Memory, k: nat, n: nat) returns (n': nat)
    requires Spliceable(f, av, bb, pred) && g == Splice(f, bb, pred) && regs.Keys == f.params
    requires Meets(m, f, g, bb, pred, regs, mem, k, n)
    ensures Meets(m, f, g, bb, pred, regs, mem, k + 1, n') && n < n' <= n + 2
    ensures n' == n + 2 ==> ShownNext(m, f, regs, mem, n + 1)
  {
    var c := Run(m, f, n, Start(f, regs, mem));
    InvRun(m, f, av, n, regs, mem);
    PairStep(m, f, av, g, bb, pred, c);
    if c.At? && c.block == pred {
      n' := n + 2;
      MeetsTwice(m, f, g, bb, pred, regs, mem, k, n, c);
    } else {
      n' := n + 1;
      MeetsOnce(m, f, g, bb, pred, regs, mem, k, n, c);
    }
  }

  lemma MeetsOnce(m: Machine, f: Func, g: Func, bb: Label, pred: Label, regs: Regs, mem: Memory, k: nat, n: nat, c: Config)
    requires Meets(m, f, g, bb, pred, regs, mem, k, n) && c == Run(m, f, n, Start(f, regs, mem))
    requires var c1 := Step(m, f, c);
      Step(m, g, RenameConfig(c, bb, pred)) == RenameConfig(c1, bb, pred) && (c1.At? ==> c1.block != bb)
    ensures Meets(m, f, g, bb, pred, regs, mem, k + 1, n + 1)
  {
  }

  lemma MeetsTwice(m: Machine, f: Func, g: Func, bb: Label, pred: Label, regs: Regs, mem: Memory, k: nat, n: nat, c: Config)
    requires Meets(m, f, g, bb, pred, regs, mem, k, n) && c == Run(m, f, n, Start(f, regs, mem))
    requires var c1 := Step(m, f, c);
      var c2 := Step(m, f, c1);
      Step(m, g, RenameConfig(c, bb, pred)) == RenameConfig(c2, bb, pred) && (c2.At? ==> c2.block != bb) && Shows(c1, c2)
    ensures Meets(m, f, g, bb, pred, regs, mem, k + 1, n + 2) && ShownNext(m, f, regs, mem, n + 1)
  {
    var c1 := Step(m, f, c);
    assert Run(m, f, n + 1, Start(f, regs, mem)) == c1;
    assert Run(m, f, n + 2, Start(f, regs, mem)) == Step(m, f, c1);
  }

  lemma MeetsStart(m: Machine, f: Func, g: Func, bb: Label, pred: Label, regs: Regs, mem: Memory)
    requires SoleEdge(f, bb, pred) && g == Splice(f, bb, pred)
    ensures Meets(m, f, g, bb, pred, regs, mem, 0, 0)
  {
  }

  lemma {:induction false} MeetsAfter(m: Machine, f: Func, av: Avail, g: Func, bb: Label, pred: Label, regs: Regs, mem: Memory, k: nat)
    returns (n: nat)
    requires Spliceable(f, av, bb, pred) && g == Splice(f, bb, pred) && regs.Keys == f.params
    ensures Meets(m, f, g, bb, pred, regs, mem, k, n) && n >= k
  {
    if k == 0 {
      n := 0;
      MeetsStart(m, f, g, bb, pred, regs, mem);
    } else {
      var n0 := MeetsAfter(m, f, av, g, bb, pred, regs, mem, k - 1);
      n := MeetsStep(m, f, av, g, bb, pred, regs, mem, k - 1, n0);
    }
  }

  /** Every point of the original run is a meeting point, or is shown at the next one. */
  lemma {:induction false} MeetsBefore(m: Machine, f: Func, av: Avail, g: Func, bb: Label, pred: Label, regs: Regs, mem: Memory, n: nat)
    returns (k: nat, n': nat)
    requires Spliceable(f, av, bb, pred) && g == Splice(f, bb, pred) && regs.Keys == f.params
    ensures Meets(m, f, g, bb, pred, regs, mem, k, n')
    ensures n' == n || (n' == n + 1 && ShownNext(m, f, regs, mem, n))
  {
    if n == 0 {
      k, n' := 0, 0;
      MeetsStart(m, f, g, bb, pred, regs, mem);
    } else {
      var j := n - 1;
      k, n' := MeetsBefore(m, f, av, g, bb, pred, regs, mem, j);
      if n' == j {
        n' := MeetsStep(m, f, av, g, bb, pred, regs, mem, k, j);
        k := k + 1;
      }
    }
  }

  lemma MeetsShows(m: Machine, f: Func, g: Func, bb: Label, pred: Label, regs: Regs, mem: Memory, k: nat, n: nat)
    requires Meets(m, f, g, bb, pred, regs, mem, k, n)
    ensures Shows(Run(m, f, n, Start(f, regs, mem)), Run(m, g, k, Start(g, regs, mem)))
    ensures Shows(Run(m, g, k, Start(g, regs, mem)), Run(m, f, n, Start(f, regs, mem)))
  {
  }

  lemma ShowsTrans(a: Config, b: Config, c: Config)
    requires Shows(a, b) && Shows(b, c)
    ensures Shows(a, c)
  {
  }

  lemma SpliceEquivalent(f: Func, av: Avail, bb: Label, pred: Label)
    requires Spliceable(f, av, bb, pred)
    ensures Equivalent(f, Splice(f, bb, pred))
  {
    var g := Splice(f, bb, pred);
    forall m, regs: Regs, mem, n: nat | regs.Keys == f.params
      ensures ShownBy(m, f, g, regs, mem, n) && ShownBy(m, g, f, regs, mem, n)
    {
      var k, n' := MeetsBefore(m, f, av, g, bb, pred, regs, mem, n);
      MeetsShows(m, f, g, bb, pred, regs, mem, k, n');
      if n' == n + 1 {
        ShowsTrans(Run(m, f, n, Start(f, regs, mem)), Run(m, f, n + 1, Start(f, regs, mem)), Run(m, g, k, Start(g, regs, mem)));
      }
      assert Shows(Run(m, f, n, Start(f, regs, mem)), Run(m, g, k, Start(g, regs, mem)));
      var j := MeetsAfter(m, f, av, g, bb, pred, regs, mem, n);
      MeetsShows(m, f, g, bb, pred, regs, mem, n, j);
      assert Shows(Run(m, g, n, Start(g, regs, mem)), Run(m, f, j, Start(f, regs, mem)));
    }
  }
}
