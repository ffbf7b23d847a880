/** The three simplifications as functions, and the proof that each of them, over any
    list of blocks and in any combination, keeps a function well-formed and changes
    nothing observable. */
module CfgPasses {
  import opened Wrappers
  import opened SsaFunction
  import opened SsaRewrite
  import opened SsaRuns
  import opened SsaDead
  import opened SsaEdges
  import opened SsaForward
  import opened SsaSplice

  /** No block is half deleted. */
  ghost predicate Complete(f: Func) {
    forall l {:trigger f.blocks[l].term} :: l in f.blocks ==> !f.blocks[l].term.kind.Erased?
  }

  ghost predicate Valid(f: Func) {
    WellFormed(f) && Complete(f)
  }

  /** What every simplification promises. */
  ghost predicate Simplifies(f: Func, g: Func) {
    Valid(g) && Equivalent(f, g)
  }

  lemma SimplifiesTrans(f: Func, g: Func, h: Func)
    requires Simplifies(f, g) && Simplifies(g, h)
    ensures Simplifies(f, h)
  {
    EquivalentTrans(f, g, h);
  }

  lemma SimplifiesRefl(f: Func)
    requires Valid(f)
    ensures Simplifies(f, f)
  {
    EquivalentRefl(f);
  }

  lemma {:induction false} SubComplete(blocks: map<Label, Block>, rs: set<Reg>, x: Value)
    ensures forall l :: l in blocks ==> SubBlocks(blocks, rs, x)[l].term.kind.Erased? == blocks[l].term.kind.Erased?
  {
  }

  // ----- Branches on constants ------------------------------------------------------------------

  /** The block ends in a conditional branch with a constant condition. */
  predicate ConstantBranch(f: Func, l: Label) {
    l in f.blocks && f.blocks[l].term.kind.CondJump? && f.blocks[l].term.kind.cond.Const?
    && |f.blocks[l].term.succs| == 2 && f.blocks[l].term.succs[0] in f.blocks && f.blocks[l].term.succs[1] in f.blocks
  }

  /** getSuccessor(CI->isOne()): the successor that is removed. */
  function RemovedIndex(f: Func, l: Label): nat
    requires ConstantBranch(f, l)
  {
    if f.blocks[l].term.kind.cond.n % 2 == 1 then 1 else 0
  }

  function EliminateAt(f: Func, l: Label): Func {
    if ConstantBranch(f, l) then DropEdge(f, l, Jump, RemovedIndex(f, l)) else f
  }

  function Eliminate(f: Func, ls: seq<Label>): Func
    decreases |ls|
  {
    if ls == [] then f else Eliminate(EliminateAt(f, ls[0]), ls[1..])
  }

  lemma DropEdgeComplete(f: Func, l: Label, i: nat)
    requires Complete(f) && l in f.blocks && i < |f.blocks[l].term.succs| && f.blocks[l].term.succs[i] in f.blocks
    ensures Complete(DropEdge(f, l, Jump, i))
  {
    var g := DropEdgeOnly(f, l, Jump, i);
    var x := f.blocks[l].term.succs[i];
    assert Complete(g);
    SubComplete(g.blocks[x := g.blocks[x].(phis := KeepPhis(g.blocks[x].phis))], EmptyDefs(g.blocks[x].phis), Undef);
  }

  lemma EliminateAtCorrect(f: Func, l: Label)
    requires Valid(f)
    ensures Simplifies(f, EliminateAt(f, l))
  {
    if ConstantBranch(f, l) {
      var av :| Wf(f, av);
      var i := RemovedIndex(f, l);
      var av' := DropEdgeCorrect(f, av, l, Jump, i);
      DropEdgeComplete(f, l, i);
    } else {
      SimplifiesRefl(f);
    }
  }

  lemma {:induction false} EliminateCorrect(f: Func, ls: seq<Label>)
    requires Valid(f)
    ensures Simplifies(f, Eliminate(f, ls))
    decreases |ls|
  {
    if ls == [] {
      SimplifiesRefl(f);
    } else {
      var g := EliminateAt(f, ls[0]);
      EliminateAtCorrect(f, ls[0]);
      EliminateCorrect(g, ls[1..]);
      SimplifiesTrans(f, g, Eliminate(g, ls[1..]));
    }
  }

  // ----- Blocks without predecessors --------------------------------------------------------------

  /** removePredecessor for every successor edge of l. */
  function DropSuccessors(f: Func, l: Label, succs: seq<Label>): Func
    decreases |succs|
  {
    if succs == [] then f
    else DropSuccessors(if succs[0] in f.blocks then RemovePredecessor(f, succs[0], l) else f, l, succs[1..])
  }

  lemma {:induction false} DropSuccessorsKeys(f: Func, l: Label, succs: seq<Label>)
    ensures DropSuccessors(f, l, succs).blocks.Keys == f.blocks.Keys
    ensures DropSuccessors(f, l, succs).entry == f.entry && DropSuccessors(f, l, succs).params == f.params
    decreases |succs|
  {
    if succs != [] {
      DropSuccessorsKeys(if succs[0] in f.blocks then RemovePredecessor(f, succs[0], l) else f, l, succs[1..]);
    }
  }

  function DeleteDead(f: Func, l: Label): Func
    requires l in f.blocks
  {
    var g := DropSuccessors(f, l, f.blocks[l].term.succs);
    DropSuccessorsKeys(f, l, f.blocks[l].term.succs);
    RemoveBlock(g, l)
  }

  ghost function RemoveDeadAt(f: Func, l: Label): Func {
    if Dead(f, l) then DeleteDead(f, l) else f
  }

  ghost function RemoveDead(f: Func, ls: seq<Label>): Func
    decreases |ls|
  {
    if ls == [] then f else RemoveDead(RemoveDeadAt(f, ls[0]), ls[1..])
  }

  /** The same function, but for what the terminator of l does. */
  ghost predicate SameBut(f: Func, g: Func, l: Label) {
    && f.entry == g.entry && f.params == g.params && f.blocks.Keys == g.blocks.Keys && l in f.blocks
    && (forall k {:trigger f.blocks[k]} :: k in f.blocks && k != l ==> f.blocks[k] == g.blocks[k])
    && f.blocks[l].phis == g.blocks[l].phis && f.blocks[l].insts == g.blocks[l].insts
  }

  lemma SameButRemove(f: Func, g: Func, l: Label, x: Label)
    requires SameBut(f, g, l) && x in f.blocks
    ensures SameBut(RemovePredecessor(f, x, l), RemovePredecessor(g, x, l), l)
  {
    var a, b := DropEntries(f, x, l), DropEntries(g, x, l);
    assert SameBut(a, b, l) && a.blocks[x].phis == b.blocks[x].phis;
    SameButErase(a, b, l, x);
  }

  lemma SameButErase(a: Func, b: Func, l: Label, x: Label)
    requires SameBut(a, b, l) && x in a.blocks && a.blocks[x].phis == b.blocks[x].phis
    ensures SameBut(ErasePhis(a, x), ErasePhis(b, x), l)
  {
  }

  /** Terminators elsewhere keep their successors when PHI entries go. */
  lemma RemovePredecessorEdges(f: Func, x: Label, l: Label, p: Label, k: Label)
    requires x in f.blocks
    ensures Edges(RemovePredecessor(f, x, l), p, k) == Edges(f, p, k)
  {
    EdgesAfterErase(DropEntries(f, x, l), x, p, k);
  }

  /** Taking the successors of a dead block away, one edge after the other.  The code leaves
      the terminator in place until the end; the proof's copy g sheds it edge by edge. */
  lemma {:induction false} Dismantle(f: Func, g: Func, av: Avail, l: Label, succs: seq<Label>) returns (g': Func, av': Avail)
    requires Wf(g, av) && Dead(g, l) && SameBut(f, g, l) && g.blocks[l].term == Term(Erased, succs)
    requires forall k :: k in g.blocks && k != l ==> !g.blocks[k].term.kind.Erased?
    ensures Wf(g', av') && Dead(g', l) && SameBut(DropSuccessors(f, l, succs), g', l) && g'.blocks[l].term.succs == []
    ensures Equivalent(g, g')
    ensures forall k :: k in g'.blocks && k != l ==> !g'.blocks[k].term.kind.Erased?
    decreases |succs|
  {
    if succs == [] {
      g', av' := g, av;
      EquivalentRefl(g);
    } else {
      var h, avh := DismantleOne(f, g, av, l, succs);
      g', av' := Dismantle(RemovePredecessor(f, succs[0], l), h, avh, l, succs[1..]);
      EquivalentTrans(g, h, g');
    }
  }

  /** One edge. */
  lemma DismantleOne(f: Func, g: Func, av: Avail, l: Label, succs: seq<Label>) returns (h: Func, avh: Avail)
    requires Wf(g, av) && Dead(g, l) && SameBut(f, g, l) && g.blocks[l].term == Term(Erased, succs) && succs != []
    requires forall k :: k in g.blocks && k != l ==> !g.blocks[k].term.kind.Erased?
    ensures succs[0] in f.blocks && SameBut(RemovePredecessor(f, succs[0], l), h, l)
    ensures Wf(h, avh) && Dead(h, l) && h.blocks[l].term == Term(Erased, succs[1..]) && Equivalent(g, h)
    ensures forall k :: k in h.blocks && k != l ==> !h.blocks[k].term.kind.Erased?
  {
    DropEdgeTarget(g, av, l, 0);
    h := DropEdge(g, l, Erased, 0);
    avh := DropEdgeCorrect(g, av, l, Erased, 0);
    var s := SetTerm(g, l, Erased, 0);
    assert SameBut(f, s, l);
    SameButRemove(f, s, l, succs[0]);
    DismantleStep(g, l, succs[0]);
  }

  lemma DismantleStep(g: Func, l: Label, x: Label)
    requires Dead(g, l) && |g.blocks[l].term.succs| > 0 && x == g.blocks[l].term.succs[0] && x in g.blocks
    requires g.blocks[l].term.kind.Erased?
    requires forall k :: k in g.blocks && k != l ==> !g.blocks[k].term.kind.Erased?
    ensures var h := DropEdge(g, l, Erased, 0);
      && Dead(h, l) && h.blocks[l].term == Term(Erased, g.blocks[l].term.succs[1..])
      && forall k :: k in h.blocks && k != l ==> !h.blocks[k].term.kind.Erased?
  {
    var s := SetTerm(g, l, Erased, 0);
    SetErased(g, l, s);
    DismantledFrom(g, s, l, x, RemovePredecessor(s, x, l));
    forall p ensures Edges(s, p, l) == 0 {
      FewerEdges(g, l, p);
    }
    forall p ensures Edges(RemovePredecessor(s, x, l), p, l) == 0 {
      RemovePredecessorEdges(s, x, l, p, l);
    }
  }

  lemma SetErased(g: Func, l: Label, s: Func)
    requires l in g.blocks && |g.blocks[l].term.succs| > 0 && s == SetTerm(g, l, Erased, 0)
    ensures s.blocks.Keys == g.blocks.Keys && s.entry == g.entry && s.blocks[l].term == Term(Erased, g.blocks[l].term.succs[1..])
    ensures forall k :: k in g.blocks && k != l ==> s.blocks[k].term == g.blocks[k].term
  {
    assert Without(g.blocks[l].term.succs, 0) == g.blocks[l].term.succs[1..];
  }

  lemma DismantledFrom(g: Func, s: Func, l: Label, x: Label, h: Func)
    requires x in s.blocks && l in s.blocks && l in g.blocks && l != g.entry
    requires h == RemovePredecessor(s, x, l)
    requires s.blocks.Keys == g.blocks.Keys && s.entry == g.entry && s.blocks[l].term.kind.Erased?
    requires forall k :: k in g.blocks && k != l ==> s.blocks[k].term == g.blocks[k].term && !g.blocks[k].term.kind.Erased?
    ensures l in h.blocks && h.entry == g.entry && h.blocks[l].term == s.blocks[l].term
    ensures forall k :: k in h.blocks && k != l ==> !h.blocks[k].term.kind.Erased?
  {
    RemovePredecessorErased(s, x, l);
    forall k | k in h.blocks && k != l ensures !h.blocks[k].term.kind.Erased? {
      assert k in s.blocks by {
        RemovePredecessorShape(s, x, l);
      }
      RemovePredecessorKinds(s, x, l, k);
    }
  }

  lemma RemovePredecessorShape(f: Func, x: Label, l: Label)
    requires x in f.blocks
    ensures RemovePredecessor(f, x, l).blocks.Keys == f.blocks.Keys && RemovePredecessor(f, x, l).entry == f.entry
  {
  }

  lemma FewerEdges(g: Func, l: Label, p: Label)
    requires Dead(g, l) && |g.blocks[l].term.succs| > 0
    ensures Edges(SetTerm(g, l, Erased, 0), p, l) == 0
  {
    assert Edges(g, p, l) == 0;
    assert Edges(g, l, l) == 0;
    CountWithout(g.blocks[l].term.succs, 0, l);
  }

  lemma RemovePredecessorKinds(f: Func, x: Label, l: Label, k: Label)
    requires x in f.blocks && k in f.blocks
    ensures var h := RemovePredecessor(f, x, l);
      k in h.blocks && h.blocks[k].term.kind.Erased? == f.blocks[k].term.kind.Erased?
  {
  }

  lemma RemovePredecessorErased(f: Func, x: Label, l: Label)
    requires x in f.blocks && l in f.blocks && f.blocks[l].term.kind.Erased?
    ensures var h := RemovePredecessor(f, x, l); l in h.blocks && h.blocks[l].term == f.blocks[l].term
  {
  }

  /** The function with the terminator of l half deleted. */
  function WithErased(f: Func, l: Label): Func
    requires l in f.blocks
  {
    f.(blocks := f.blocks[l := f.blocks[l].(term := Term(Erased, f.blocks[l].term.succs))])
  }

  lemma EraseTermCorrect(f: Func, av: Avail, l: Label)
    requires Wf(f, av) && Dead(f, l)
    ensures var g := WithErased(f, l); Wf(g, av) && Dead(g, l) && Equivalent(f, g) && SameBut(f, g, l)
  {
    var g := WithErased(f, l);
    forall k | k in g.blocks ensures BlockOk(g, av, k) {
      assert BlockOk(f, av, k);
      EraseTermBlock(f, av, l, k);
    }
    forall k, j | k in g.blocks && j in g.blocks ensures Apart(g, k, j) {
      assert Apart(f, k, j);
    }
    forall p ensures Edges(g, p, l) == 0 {
      assert Edges(f, p, l) == 0;
    }
    EraseTermEquivalent(f, av, l);
  }

  lemma EraseTermEquivalent(f: Func, av: Avail, l: Label)
    requires Wf(f, av) && Dead(f, l)
    ensures Equivalent(f, WithErased(f, l))
  {
    var g := WithErased(f, l);
    forall k | k in f.blocks && k != l ensures g.blocks[k] == SubBlock(f.blocks[k], {}, Undef) {
      SubNoneBlock(f.blocks[k], Undef);
    }
    DeadSubEquivalent(f, av, g, l, {});
  }

  lemma EraseTermBlock(f: Func, av: Avail, l: Label, k: Label)
    requires Wf(f, av) && l in f.blocks && k in f.blocks && BlockOk(f, av, k)
    ensures BlockOk(WithErased(f, l), av, k)
  {
    var g := WithErased(f, l);
    var b := f.blocks[k];
    forall j | 0 <= j < |b.term.succs| ensures EdgeOk(g, av, k, b.term.succs[j]) {
      assert EdgeOk(f, av, k, b.term.succs[j]);
    }
    forall j | 0 <= j < |b.phis| ensures PhiOk(g, av, k, b.phis[j]) {
      var phi := b.phis[j];
      assert PhiOk(f, av, k, phi);
      forall p ensures FromCount(phi.incoming, p) == Edges(g, p, k) {
        assert FromCount(phi.incoming, p) == Edges(f, p, k);
      }
      forall i | 0 <= i < |phi.incoming| ensures IncomingKnown(g, av, phi.incoming[i]) {
        assert IncomingKnown(f, av, phi.incoming[i]);
      }
    }
  }

  /** Removing the block itself does not depend on its terminator. */
  lemma SameButRemoveBlock(f: Func, g: Func, l: Label)
    requires SameBut(f, g, l)
    ensures RemoveBlock(f, l) == RemoveBlock(g, l)
  {
    assert f.blocks - {l} == g.blocks - {l};
  }

  lemma RemoveDeadAtCorrect(f: Func, l: Label)
    requires Valid(f)
    ensures Simplifies(f, RemoveDeadAt(f, l))
  {
    if Dead(f, l) {
      var av :| Wf(f, av);
      EraseTermCorrect(f, av, l);
      var succs := f.blocks[l].term.succs;
      var g := WithErased(f, l);
      var h, avh := Dismantle(f, g, av, l, succs);
      SameButRemoveBlock(DropSuccessors(f, l, succs), h, l);
      RemoveBlockWf(h, avh, l);
      RemoveBlockEquivalent(h, avh, l);
      EquivalentTrans(f, g, h);
      EquivalentTrans(f, h, RemoveBlock(h, l));
      SubComplete(h.blocks - {l}, Defs(h.blocks[l]), Undef);
    } else {
      SimplifiesRefl(f);
    }
  }

  lemma {:induction false} RemoveDeadCorrect(f: Func, ls: seq<Label>)
    requires Valid(f)
    ensures Simplifies(f, RemoveDead(f, ls))
    decreases |ls|
  {
    if ls == [] {
      SimplifiesRefl(f);
    } else {
      var g := RemoveDeadAt(f, ls[0]);
      RemoveDeadAtCorrect(f, ls[0]);
      RemoveDeadCorrect(g, ls[1..]);
      SimplifiesTrans(f, g, RemoveDead(g, ls[1..]));
    }
  }

  // ----- Merging into the single predecessor ----------------------------------------------------------

  /** bb has one predecessor edge, from another block whose only successor edge it is. */
  ghost predicate Mergeable(f: Func, bb: Label, pred: Label) {
    && bb in f.blocks && pred in f.blocks && pred != bb
    && (forall q {:trigger Edges(f, q, bb)} :: Edges(f, q, bb) == if q == pred then 1 else 0)
    && f.blocks[pred].term.succs == [bb]
  }

  lemma MergeableSole(f: Func, bb: Label, pred: Label)
    requires Valid(f) && Mergeable(f, bb, pred)
    ensures SoleEdge(f, bb, pred)
  {
    var av :| Wf(f, av);
    NoEdgeToEntry(f, av, pred);
    assert Edges(f, pred, bb) == 1;
  }

  /** Every PHI node of bb is replaced by its incoming value.  None where the code asks to
      replace a value by itself, which replaceAllUsesWith asserts against. */
  function ForwardAll(f: Func, bb: Label): Option<Func>
    requires bb in f.blocks
    decreases |f.blocks[bb].phis|
  {
    var phis := f.blocks[bb].phis;
    if phis == [] then Some(f)
    else if phis[0].incoming == [] || phis[0].incoming[0].value == Use(phis[0].dst) then None
    else ForwardAll(ForwardPhi(f, bb), bb)
  }

  function MergeInto(f: Func, bb: Label, pred: Label): Option<Func>
    requires bb in f.blocks && pred in f.blocks
  {
    match ForwardAll(f, bb)
    case None => None
    case Some(g) => if bb in g.blocks && pred in g.blocks then Some(Splice(g, bb, pred)) else None
  }

  ghost function MergeAt(f: Func, bb: Label): Option<Func> {
    if exists pred :: Mergeable(f, bb, pred) then
      var pred :| Mergeable(f, bb, pred);
      MergeInto(f, bb, pred)
    else Some(f)
  }

  ghost function Merge(f: Func, ls: seq<Label>): Option<Func>
    decreases |ls|
  {
    if ls == [] then Some(f)
    else match MergeAt(f, ls[0])
      case None => None
      case Some(g) => Merge(g, ls[1..])
  }

  lemma MergeableUnique(f: Func, bb: Label, p: Label, q: Label)
    requires Mergeable(f, bb, p) && Mergeable(f, bb, q)
    ensures p == q
  {
    assert Edges(f, p, bb) == 1;
  }

  lemma {:induction false} AllFrom(incoming: seq<Incoming>, l: Label)
    requires forall i :: 0 <= i < |incoming| ==> incoming[i].from == l
    ensures FromCount(incoming, l) == |incoming|
  {
    if incoming != [] {
      AllFrom(incoming[1..], l);
    }
  }

  lemma OneIncoming(incoming: seq<Incoming>, pred: Label)
    requires forall q {:trigger FromCount(incoming, q)} :: FromCount(incoming, q) == if q == pred then 1 else 0
    ensures |incoming| == 1 && incoming[0].from == pred
  {
    forall i | 0 <= i < |incoming| ensures incoming[i].from == pred {
      FromCountIn(incoming, i);
    }
    AllFrom(incoming, pred);
  }

  lemma FirstCopies(f: Func, av: Avail, bb: Label, pred: Label)
    requires Wf(f, av) && SoleEdge(f, bb, pred) && f.blocks[bb].phis != []
    ensures var phi := f.blocks[bb].phis[0];
      |phi.incoming| == 1 && phi.incoming[0].from == pred
      && (phi.incoming[0].value != Use(phi.dst) ==> Copies(f, av, bb, pred, phi.dst, phi.incoming[0].value))
  {
    var phi := f.blocks[bb].phis[0];
    assert BlockOk(f, av, bb) && PhiOk(f, av, bb, phi);
    forall q ensures FromCount(phi.incoming, q) == if q == pred then 1 else 0 {
      assert FromCount(phi.incoming, q) == Edges(f, q, bb);
    }
    OneIncoming(phi.incoming, pred);
    assert phi.incoming == [Incoming(phi.incoming[0].value, pred)];
  }

  /** Forwarding keeps the edges. */
  lemma ForwardKeeps(f: Func, av: Avail, bb: Label, pred: Label)
    requires Wf(f, av) && SoleEdge(f, bb, pred) && f.blocks[bb].phis != []
    requires f.blocks[bb].phis[0].incoming != [] && f.blocks[bb].phis[0].incoming[0].value != Use(f.blocks[bb].phis[0].dst)
    ensures var g := ForwardPhi(f, bb);
      && g.blocks.Keys == f.blocks.Keys && SoleEdge(g, bb, pred)
      && (forall q, k :: Edges(g, q, k) == Edges(f, q, k))
      && (Complete(f) ==> Complete(g)) && |g.blocks[bb].phis| < |f.blocks[bb].phis|
      && (forall k :: k in g.blocks ==> g.blocks[k].term.succs == f.blocks[k].term.succs)
  {
    var g := ForwardPhi(f, bb);
    ForwardShape(f, bb);
    ForwardKeepsEdges(f, av, bb, pred);
    ForwardKeepsSuccs(f, av, bb, pred);
    forall q ensures Edges(g, q, bb) == if q == pred then 1 else 0 {
      assert Edges(f, q, bb) == if q == pred then 1 else 0;
    }
    ForwardErased(f, bb, pred);
  }

  lemma ForwardShape(f: Func, bb: Label)
    requires bb in f.blocks && f.blocks[bb].phis != [] && f.blocks[bb].phis[0].incoming != []
    ensures var g := ForwardPhi(f, bb);
      && g.blocks.Keys == f.blocks.Keys && g.entry == f.entry && g.params == f.params
      && |g.blocks[bb].phis| == |f.blocks[bb].phis| - 1
  {
  }

  /** No terminator is half deleted that was not before. */
  lemma ForwardErased(f: Func, bb: Label, pred: Label)
    requires bb in f.blocks && pred in f.blocks && f.blocks[bb].phis != [] && f.blocks[bb].phis[0].incoming != []
    ensures var g := ForwardPhi(f, bb);
      && (Complete(f) ==> Complete(g)) && pred in g.blocks
      && (g.blocks[pred].term.kind.Erased? <==> f.blocks[pred].term.kind.Erased?)
  {
    var b := f.blocks[bb];
    var trimmed := f.blocks[bb := b.(phis := b.phis[1..])];
    SubComplete(trimmed, {b.phis[0].dst}, b.phis[0].incoming[0].value);
  }

  lemma ForwardKeepsEdges(f: Func, av: Avail, bb: Label, pred: Label)
    requires Wf(f, av) && SoleEdge(f, bb, pred) && f.blocks[bb].phis != []
    requires f.blocks[bb].phis[0].incoming != [] && f.blocks[bb].phis[0].incoming[0].value != Use(f.blocks[bb].phis[0].dst)
    ensures forall q, k :: Edges(ForwardPhi(f, bb), q, k) == Edges(f, q, k)
  {
    FirstCopies(f, av, bb, pred);
    var phi := f.blocks[bb].phis[0];
    forall q, k ensures Edges(ForwardPhi(f, bb), q, k) == Edges(f, q, k) {
      ForwardEdges(f, av, bb, pred, phi.dst, phi.incoming[0].value, q, k);
    }
  }

  lemma ForwardKeepsSuccs(f: Func, av: Avail, bb: Label, pred: Label)
    requires Wf(f, av) && SoleEdge(f, bb, pred) && f.blocks[bb].phis != []
    requires f.blocks[bb].phis[0].incoming != [] && f.blocks[bb].phis[0].incoming[0].value != Use(f.blocks[bb].phis[0].dst)
    ensures var g := ForwardPhi(f, bb);
      forall k :: k in f.blocks ==> k in g.blocks && g.blocks[k].term.succs == f.blocks[k].term.succs
  {
    FirstCopies(f, av, bb, pred);
    var phi := f.blocks[bb].phis[0];
    var g := ForwardPhi(f, bb);
    forall k | k in f.blocks ensures k in g.blocks && g.blocks[k].term.succs == f.blocks[k].term.succs {
      ForwardBlock(f, av, bb, pred, phi.dst, phi.incoming[0].value, k);
    }
  }

  lemma {:induction false} ForwardAllCorrect(f: Func, av: Avail, bb: Label, pred: Label) returns (av': Avail)
    requires Wf(f, av) && SoleEdge(f, bb, pred) && Complete(f)
    ensures ForwardAll(f, bb).Some? ==>
      var g := ForwardAll(f, bb).value;
      && Spliceable(g, av', bb, pred) && Equivalent(f, g) && Complete(g)
      && g.blocks.Keys == f.blocks.Keys && (forall q, k :: Edges(g, q, k) == Edges(f, q, k))
      && (forall k :: k in g.blocks ==> g.blocks[k].term.succs == f.blocks[k].term.succs)
    decreases |f.blocks[bb].phis|
  {
    var phis := f.blocks[bb].phis;
    av' := av;
    if phis == [] {
      EquivalentRefl(f);
    } else {
      FirstCopies(f, av, bb, pred);
      if phis[0].incoming[0].value != Use(phis[0].dst) {
        ForwardKeeps(f, av, bb, pred);
        var av1 := ForwardCorrect(f, av, bb, pred, phis[0].dst, phis[0].incoming[0].value);
        av' := ForwardAllCorrect(ForwardPhi(f, bb), av1, bb, pred);
        if ForwardAll(f, bb).Some? {
          EquivalentTrans(f, ForwardPhi(f, bb), ForwardAll(f, bb).value);
        }
      }
    }
  }

  lemma SpliceComplete(f: Func, av: Avail, bb: Label, pred: Label)
    requires Spliceable(f, av, bb, pred) && Complete(f)
    ensures Complete(Splice(f, bb, pred))
  {
    var g := Splice(f, bb, pred);
    forall l | l in g.blocks ensures !g.blocks[l].term.kind.Erased? {
      assert !f.blocks[l].term.kind.Erased? && !f.blocks[bb].term.kind.Erased?;
    }
  }

  lemma MergeIntoCorrect(f: Func, bb: Label, pred: Label)
    requires Valid(f) && Mergeable(f, bb, pred)
    ensures MergeInto(f, bb, pred).Some? ==> Simplifies(f, MergeInto(f, bb, pred).value)
  {
    var av :| Wf(f, av);
    MergeableSole(f, bb, pred);
    var av1 := ForwardAllCorrect(f, av, bb, pred);
    if ForwardAll(f, bb).Some? {
      var g := ForwardAll(f, bb).value;
      SpliceWf(g, av1, bb, pred);
      SpliceEquivalent(g, av1, bb, pred);
      SpliceComplete(g, av1, bb, pred);
      EquivalentTrans(f, g, Splice(g, bb, pred));
    }
  }

  lemma MergeAtCorrect(f: Func, bb: Label)
    requires Valid(f)
    ensures MergeAt(f, bb).Some? ==> Simplifies(f, MergeAt(f, bb).value)
  {
    if exists pred :: Mergeable(f, bb, pred) {
      var pred :| Mergeable(f, bb, pred) && MergeAt(f, bb) == MergeInto(f, bb, pred);
      MergeIntoCorrect(f, bb, pred);
    } else {
      SimplifiesRefl(f);
    }
  }

  lemma {:induction false} MergeCorrect(f: Func, ls: seq<Label>)
    requires Valid(f)
    ensures Merge(f, ls).Some? ==> Simplifies(f, Merge(f, ls).value)
    decreases |ls|
  {
    if ls == [] {
      SimplifiesRefl(f);
    } else {
      MergeAtCorrect(f, ls[0]);
      var g := MergeAt(f, ls[0]);
      if g.Some? {
        MergeCorrect(g.value, ls[1..]);
        if Merge(f, ls).Some? {
          SimplifiesTrans(f, g.value, Merge(f, ls).value);
        }
      }
    }
  }
}
