/** What passes that do not merge leave of a function: its blocks and edges, told from the edges
    alone, and the PHI nodes of the blocks that are still entered. */
module CfgSkeleton {
  import opened Wrappers
  import opened SsaFunction
  import opened SsaRewrite
  import opened SsaRuns
  import opened SsaDead
  import opened SsaEdges
  import opened CfgPasses
  import opened CfgUpdates
  import opened CfgOrder
  import opened SimplifyCfg

  // ----- The passes before the merge, on edges only --------------------------------------------------

  /** Where the terminator of l leads once the branches of ls have gone. */
  function Redirected(f: Func, ls: seq<Label>, l: Label): Term
    requires l in f.blocks
  {
    if l in ls && ConstantBranch(f, l) then Term(Jump, [f.blocks[l].term.succs[1 - RemovedIndex(f, l)]]) else f.blocks[l].term
  }

  /** The function without the edges that constant branches of ls discard; PHI nodes stay as they are. */
  function LiveOnly(f: Func, ls: seq<Label>): Func {
    f.(blocks := map l | l in f.blocks :: f.blocks[l].(term := Redirected(f, ls, l)))
  }

  function Less(f: Func, x: Label): Func {
    f.(blocks := f.blocks - {x})
  }

  /** The function without the blocks of ls that have no predecessor when they are visited. */
  ghost function WithoutDead(f: Func, ls: seq<Label>): Func
    decreases |ls|
  {
    if ls == [] then f else WithoutDead(if Dead(f, ls[0]) then Less(f, ls[0]) else f, ls[1..])
  }

  /** The blocks and edges that are left of f after passes that do not merge. */
  ghost function Skeleton(f: Func, ls: seq<Label>, passes: seq<Pass>): Func
    requires SinglePredecessors !in passes
    decreases |passes|
  {
    if passes == [] then f
    else
      assert forall p :: p in passes[1..] ==> p in passes;
      var g := if passes[0] == CondBranches then LiveOnly(f, ls) else WithoutDead(f, ls);
      Skeleton(g, Remaining(ls, g.blocks.Keys), passes[1..])
  }

  // ----- What the passes make, compared with those edges --------------------------------------------

  ghost predicate Entered(t: Func, l: Label) {
    exists p :: Edges(t, p, l) > 0
  }

  /** No PHI node of a block that is still entered writes r. */
  ghost predicate Lost(t: Func, r: Reg) {
    forall l {:trigger t.blocks[l]} :: l in t.blocks && Entered(t, l) ==> r !in PhiDefs(t.blocks[l].phis)
  }

  /** The same value, but for lost registers that have become undef. */
  ghost predicate Like(t: Func, v: Value, u: Value) {
    v == u || (v == Undef && u.Use? && Lost(t, u.r))
  }

  ghost predicate EntryLike(t: Func, l: Label, phi: Phi, was: Phi, p: Label) {
    Edges(t, p, l) > 0 ==>
      && FromCount(phi.incoming, p) > 0 && FromCount(was.incoming, p) > 0
      && Like(t, ValueFrom(phi.incoming, Some(p)), ValueFrom(was.incoming, Some(p)))
  }

  ghost predicate PhiLike(t: Func, l: Label, phi: Phi, was: Phi) {
    phi.dst == was.dst && forall p {:trigger EntryLike(t, l, phi, was, p)} :: EntryLike(t, l, phi, was, p)
  }

  ghost predicate PhisLike(t: Func, l: Label, phis: seq<Phi>, was: seq<Phi>) {
    |phis| == |was| && forall k {:trigger phis[k]} :: 0 <= k < |phis| ==> PhiLike(t, l, phis[k], was[k])
  }

  predicate Fixed(k: Kind) {
    k.CondJump? && k.cond.Const?
  }

  predicate TermLike(a: Term, b: Term) {
    a.succs == b.succs && (Fixed(a.kind) || Fixed(b.kind) ==> a.kind == b.kind)
  }

  ghost predicate BlockLike(t: Func, l: Label, b: Block, was: Block) {
    && TermLike(b.term, was.term) && Defs(b) <= Defs(was) && PhiDefs(b.phis) <= PhiDefs(was.phis)
    && (Entered(t, l) ==> PhisLike(t, l, b.phis, was.phis))
  }

  /** g has the blocks and edges of t, and the PHI nodes of every block that is entered. */
  ghost predicate Follows(g: Func, t: Func) {
    && g.entry == t.entry && g.blocks.Keys == t.blocks.Keys
    && forall l {:trigger BlockLike(t, l, g.blocks[l], t.blocks[l])} :: l in g.blocks ==> BlockLike(t, l, g.blocks[l], t.blocks[l])
  }

  lemma FollowsSelf(f: Func)
    requires Valid(f)
    ensures Follows(f, f) && AllApart(f)
  {
    var av :| Wf(f, av);
    forall l | l in f.blocks ensures BlockLike(f, l, f.blocks[l], f.blocks[l]) {
      var phis := f.blocks[l].phis;
      assert BlockOk(f, av, l);
      forall k | 0 <= k < |phis| ensures PhiLike(f, l, phis[k], phis[k]) {
        assert PhiOk(f, av, l, phis[k]);
        forall p ensures EntryLike(f, l, phis[k], phis[k], p) {
          assert FromCount(phis[k].incoming, p) == Edges(f, p, l);
        }
      }
    }
  }

  lemma FollowsEdges(g: Func, t: Func, p: Label, q: Label)
    requires Follows(g, t)
    ensures Edges(g, p, q) == Edges(t, p, q)
    ensures p in g.blocks ==> g.blocks[p].term.succs == t.blocks[p].term.succs
    ensures ConstantBranch(g, p) <==> ConstantBranch(t, p)
    ensures ConstantBranch(g, p) ==> RemovedIndex(g, p) == RemovedIndex(t, p)
  {
    if p in g.blocks {
      assert BlockLike(t, p, g.blocks[p], t.blocks[p]);
    }
  }

  // ----- Lost registers ---------------------------------------------------------------------------------

  lemma SubLike(t: Func, rs: set<Reg>, v: Value, u: Value)
    requires Like(t, v, u) && forall r :: r in rs ==> Lost(t, r)
    ensures Like(t, Sub(v, rs, Undef), u)
  {
  }

  lemma SubPhisLike(t: Func, l: Label, phis: seq<Phi>, was: seq<Phi>, rs: set<Reg>)
    requires PhisLike(t, l, phis, was) && forall r :: r in rs ==> Lost(t, r)
    ensures PhisLike(t, l, SubPhis(phis, rs, Undef), was)
  {
    var subs := SubPhis(phis, rs, Undef);
    forall k | 0 <= k < |subs| ensures PhiLike(t, l, subs[k], was[k]) {
      var phi := phis[k];
      assert PhiLike(t, l, phi, was[k]);
      forall p ensures EntryLike(t, l, subs[k], was[k], p) {
        assert EntryLike(t, l, phi, was[k], p);
        SubIncomingFrom(phi.incoming, rs, Undef, Some(p), p);
        if Edges(t, p, l) > 0 {
          SubLike(t, rs, ValueFrom(phi.incoming, Some(p)), ValueFrom(was[k].incoming, Some(p)));
        }
      }
    }
  }

  lemma SubTermLike(a: Term, b: Term, rs: set<Reg>)
    requires TermLike(a, b)
    ensures TermLike(SubTerm(a, rs, Undef), b)
  {
  }

  /** Replacing lost registers by undef. */
  lemma SubFollows(g: Func, t: Func, rs: set<Reg>)
    requires Follows(g, t) && forall r :: r in rs ==> Lost(t, r)
    ensures Follows(g.(blocks := SubBlocks(g.blocks, rs, Undef)), t)
  {
    var h := g.(blocks := SubBlocks(g.blocks, rs, Undef));
    forall l | l in h.blocks ensures BlockLike(t, l, h.blocks[l], t.blocks[l]) {
      var b, was := g.blocks[l], t.blocks[l];
      assert BlockLike(t, l, b, was);
      SubBlockDefs(b, rs, Undef);
      SubTermLike(b.term, was.term, rs);
      if Entered(t, l) {
        SubPhisLike(t, l, b.phis, was.phis, rs);
      }
    }
  }

  lemma {:induction false} KeepPhisDefs(phis: seq<Phi>)
    ensures PhiDefs(KeepPhis(phis)) <= PhiDefs(phis) && EmptyDefs(phis) <= PhiDefs(phis)
  {
    if phis != [] {
      var last := |phis| - 1;
      KeepPhisDefs(phis[..last]);
      var kept := KeepPhis(phis[..last]);
      assert kept + [] == kept && (kept + [phis[last]])[..|kept|] == kept;
    }
  }

  lemma LostElsewhere(t: Func, y: Label, r: Reg)
    requires AllApart(t) && y in t.blocks && r in Defs(t.blocks[y]) && !Entered(t, y)
    ensures Lost(t, r)
  {
    forall l | l in t.blocks && Entered(t, l) ensures r !in PhiDefs(t.blocks[l].phis) {
      assert Apart(t, l, y);
    }
  }

  lemma EnteredNotEmpty(t: Func, y: Label, phis: seq<Phi>, was: seq<Phi>)
    requires Entered(t, y) && PhisLike(t, y, phis, was)
    ensures KeepPhis(phis) == phis && EmptyDefs(phis) == {}
  {
    var p :| Edges(t, p, y) > 0;
    forall k | 0 <= k < |phis| ensures phis[k].incoming != [] {
      assert PhiLike(t, y, phis[k], was[k]);
      assert EntryLike(t, y, phis[k], was[k], p);
    }
    KeepEvery(phis);
  }

  /** Without the empty PHI nodes the block is like it was, and their registers are lost. */
  lemma KeptLike(t: Func, y: Label, b: Block)
    requires AllApart(t) && y in t.blocks && BlockLike(t, y, b, t.blocks[y])
    ensures BlockLike(t, y, b.(phis := KeepPhis(b.phis)), t.blocks[y])
    ensures forall r :: r in EmptyDefs(b.phis) ==> Lost(t, r)
  {
    KeepPhisDefs(b.phis);
    if Entered(t, y) {
      EnteredNotEmpty(t, y, b.phis, t.blocks[y].phis);
    } else {
      forall r | r in EmptyDefs(b.phis) ensures Lost(t, r) {
        LostElsewhere(t, y, r);
      }
    }
  }

  /** Erasing the PHI nodes of y that have become empty. */
  lemma EraseFollows(g: Func, t: Func, y: Label)
    requires Follows(g, t) && AllApart(t) && y in g.blocks
    ensures Follows(ErasePhis(g, y), t)
  {
    var b := g.blocks[y];
    assert BlockLike(t, y, b, t.blocks[y]);
    KeptLike(t, y, b);
    var kept := b.(phis := KeepPhis(b.phis));
    ReplaceFollows(g, t, y, kept);
    SubFollows(g.(blocks := g.blocks[y := kept]), t, EmptyDefs(b.phis));
  }

  lemma ReplaceFollows(g: Func, t: Func, y: Label, b: Block)
    requires Follows(g, t) && y in g.blocks && BlockLike(t, y, b, t.blocks[y])
    ensures Follows(g.(blocks := g.blocks[y := b]), t)
  {
    forall l | l in g.blocks ensures BlockLike(t, l, g.blocks[y := b][l], t.blocks[l]) {
      assert BlockLike(t, l, g.blocks[l], t.blocks[l]);
    }
  }

  // ----- One entry less -------------------------------------------------------------------------------

  /** An entry from x can go: there is no edge from x any more, or there are two entries that agree. */
  ghost predicate Spare(t: Func, x: Label, y: Label, phi: Phi) {
    Edges(t, x, y) > 0 ==>
      FromCount(phi.incoming, x) > 1
      && forall i, j {:trigger Agree(phi.incoming[i], phi.incoming[j])} ::
           0 <= i < |phi.incoming| && 0 <= j < |phi.incoming| ==> Agree(phi.incoming[i], phi.incoming[j])
  }

  lemma {:induction false} RemoveFromOthers(incoming: seq<Incoming>, x: Label, p: Label)
    requires p != x
    ensures ValueFrom(RemoveFrom(incoming, x), Some(p)) == ValueFrom(incoming, Some(p))
  {
    if incoming != [] && incoming[0].from != x {
      RemoveFromOthers(incoming[1..], x, p);
      assert RemoveFrom(incoming, x)[1..] == RemoveFrom(incoming[1..], x);
    }
  }

  lemma DropPhiLike(t: Func, x: Label, y: Label, phi: Phi, was: Phi)
    requires PhiLike(t, y, phi, was) && Spare(t, x, y, phi)
    ensures PhiLike(t, y, Phi(phi.dst, RemoveFrom(phi.incoming, x)), was)
  {
    var less := Phi(phi.dst, RemoveFrom(phi.incoming, x));
    forall p ensures EntryLike(t, y, less, was, p) {
      assert EntryLike(t, y, phi, was, p);
      RemoveFromCount(phi.incoming, x, p);
      if p != x {
        RemoveFromOthers(phi.incoming, x, p);
      } else if Edges(t, x, y) > 0 {
        RemoveFromCount(phi.incoming, x, x);
        ValueFromRemoved(phi.incoming, x, Some(x));
      }
    }
  }

  ghost predicate AllSpare(t: Func, x: Label, y: Label, phis: seq<Phi>) {
    forall k {:trigger Spare(t, x, y, phis[k])} :: 0 <= k < |phis| ==> Spare(t, x, y, phis[k])
  }

  lemma RemoveFollows(g: Func, t: Func, y: Label, x: Label)
    requires Follows(g, t) && AllApart(t) && y in g.blocks
    requires Entered(t, y) ==> AllSpare(t, x, y, g.blocks[y].phis)
    ensures Follows(RemovePredecessor(g, y, x), t)
  {
    var b := g.blocks[y];
    assert BlockLike(t, y, b, t.blocks[y]);
    DropBlockLike(t, x, y, b);
    ReplaceFollows(g, t, y, b.(phis := DropFrom(b.phis, x)));
    EraseFollows(DropEntries(g, y, x), t, y);
  }

  lemma DropBlockLike(t: Func, x: Label, y: Label, b: Block)
    requires y in t.blocks && BlockLike(t, y, b, t.blocks[y]) && (Entered(t, y) ==> AllSpare(t, x, y, b.phis))
    ensures BlockLike(t, y, b.(phis := DropFrom(b.phis, x)), t.blocks[y])
  {
    DropFromDefs(b.phis, x);
    if Entered(t, y) {
      forall k | 0 <= k < |b.phis| ensures PhiLike(t, y, DropFrom(b.phis, x)[k], t.blocks[y].phis[k]) {
        assert PhiLike(t, y, b.phis[k], t.blocks[y].phis[k]) && Spare(t, x, y, b.phis[k]);
        DropPhiLike(t, x, y, b.phis[k], t.blocks[y].phis[k]);
      }
    }
  }

  // ----- Fewer edges ----------------------------------------------------------------------------------

  /** t' is t with fewer edges and perhaps fewer blocks. */
  ghost predicate Fewer(t: Func, t': Func) {
    && t'.entry == t.entry && t'.blocks.Keys <= t.blocks.Keys
    && (forall p, q {:trigger Edges(t', p, q)} :: Edges(t', p, q) <= Edges(t, p, q))
    && (forall l {:trigger t'.blocks[l]} :: l in t'.blocks ==>
          t'.blocks[l].phis == t.blocks[l].phis && t'.blocks[l].insts == t.blocks[l].insts)
  }

  lemma FewerEntered(t: Func, t': Func, l: Label)
    requires Fewer(t, t') && Entered(t', l)
    ensures Entered(t, l)
  {
    var p :| Edges(t', p, l) > 0;
    assert Edges(t, p, l) > 0;
  }

  lemma FewerLost(t: Func, t': Func, r: Reg)
    requires Fewer(t, t') && Lost(t, r)
    ensures Lost(t', r)
  {
    forall l | l in t'.blocks && Entered(t', l) ensures r !in PhiDefs(t'.blocks[l].phis) {
      FewerEntered(t, t', l);
      assert l in t.blocks && t.blocks[l].phis == t'.blocks[l].phis;
    }
  }

  lemma FewerPhis(t: Func, t': Func, l: Label, phis: seq<Phi>, was: seq<Phi>)
    requires Fewer(t, t') && PhisLike(t, l, phis, was)
    ensures PhisLike(t', l, phis, was)
  {
    forall k | 0 <= k < |phis| ensures PhiLike(t', l, phis[k], was[k]) {
      assert PhiLike(t, l, phis[k], was[k]);
      forall p ensures EntryLike(t', l, phis[k], was[k], p) {
        assert EntryLike(t, l, phis[k], was[k], p);
        if Edges(t', p, l) > 0 {
          assert Edges(t, p, l) > 0;
          var u := ValueFrom(was[k].incoming, Some(p));
          if u.Use? && Lost(t, u.r) {
            FewerLost(t, t', u.r);
          }
        }
      }
    }
  }

  lemma FewerBlock(t: Func, t': Func, l: Label, b: Block)
    requires Fewer(t, t') && l in t'.blocks && BlockLike(t, l, b, t.blocks[l])
    ensures Entered(t', l) ==> PhisLike(t', l, b.phis, t'.blocks[l].phis)
    ensures Defs(b) <= Defs(t'.blocks[l]) && PhiDefs(b.phis) <= PhiDefs(t'.blocks[l].phis)
  {
    assert t'.blocks[l].phis == t.blocks[l].phis && t'.blocks[l].insts == t.blocks[l].insts;
    if Entered(t', l) {
      FewerEntered(t, t', l);
      FewerPhis(t, t', l, b.phis, t.blocks[l].phis);
    }
  }

  lemma FewerApart(t: Func, t': Func)
    requires Fewer(t, t') && AllApart(t)
    ensures AllApart(t')
  {
    forall l, k | l in t'.blocks && k in t'.blocks ensures Apart(t', l, k) {
      assert Apart(t, l, k);
      assert t'.blocks[l].phis == t.blocks[l].phis && t'.blocks[k].phis == t.blocks[k].phis;
    }
  }

  // ----- Eliminating branches ----------------------------------------------------------------------

  lemma LiveOnlyFewer(t: Func, x: Label)
    requires ConstantBranch(t, x)
    ensures Fewer(t, LiveOnly(t, [x]))
  {
    var t' := LiveOnly(t, [x]);
    forall p, q ensures Edges(t', p, q) <= Edges(t, p, q) {
      LiveOnlyEdges(t, x, p, q);
    }
  }

  lemma LiveOnlyEdges(t: Func, x: Label, p: Label, q: Label)
    requires ConstantBranch(t, x)
    ensures Edges(LiveOnly(t, [x]), p, q)
      == Edges(t, p, q) - if p == x && q == t.blocks[x].term.succs[RemovedIndex(t, x)] then 1 else 0
  {
    var succs := t.blocks[x].term.succs;
    if p == x {
      TwoEdges(succs, q);
      OneEdge(succs[1 - RemovedIndex(t, x)], q);
    }
  }

  /** With two edges from x to y, one can go. */
  lemma SpareEdge(g: Func, t: Func, x: Label, y: Label)
    requires Valid(g) && Follows(g, t) && ConstantBranch(t, x) && y == t.blocks[x].term.succs[RemovedIndex(t, x)]
    ensures y in g.blocks && AllSpare(LiveOnly(t, [x]), x, y, g.blocks[y].phis)
  {
    var av :| Wf(g, av);
    var phis := g.blocks[y].phis;
    assert BlockOk(g, av, y);
    FollowsEdges(g, t, x, y);
    LiveOnlyEdges(t, x, x, y);
    forall k | 0 <= k < |phis| ensures Spare(LiveOnly(t, [x]), x, y, phis[k]) {
      assert PhiOk(g, av, y, phis[k]);
      assert FromCount(phis[k].incoming, x) == Edges(g, x, y);
    }
  }

  lemma RedirectFollows(g: Func, t: Func, x: Label, s: Func, t': Func)
    requires Follows(g, t) && Fewer(t, t') && x in g.blocks && SameBut(g, s, x) && t'.blocks.Keys == t.blocks.Keys
    requires TermLike(s.blocks[x].term, t'.blocks[x].term)
    requires forall l :: l in t.blocks && l != x ==> t'.blocks[l] == t.blocks[l]
    ensures Follows(s, t')
  {
    forall l | l in s.blocks ensures BlockLike(t', l, s.blocks[l], t'.blocks[l]) {
      assert BlockLike(t, l, g.blocks[l], t.blocks[l]);
      FewerBlock(t, t', l, g.blocks[l]);
      assert l != x ==> s.blocks[l] == g.blocks[l];
    }
  }

  lemma EliminateAtFollows(g: Func, t: Func, x: Label)
    requires Valid(g) && Follows(g, t) && AllApart(t)
    ensures Follows(EliminateAt(g, x), LiveOnly(t, [x])) && AllApart(LiveOnly(t, [x]))
  {
    var t' := LiveOnly(t, [x]);
    FollowsEdges(g, t, x, x);
    if ConstantBranch(t, x) {
      var i := RemovedIndex(t, x);
      var y := t.blocks[x].term.succs[i];
      var s := SetTerm(g, x, Jump, i);
      SetJump(g, x, i, s);
      LiveOnlyFewer(t, x);
      FewerApart(t, t');
      RedirectFollows(g, t, x, s, t');
      SpareEdge(g, t, x, y);
      if y == x {
        assert s.blocks[y].phis == g.blocks[y].phis;
      }
      RemoveFollows(s, t', y, x);
    } else {
      LiveOnlyNone(t, x);
    }
  }

  lemma LiveOnlyNone(t: Func, x: Label)
    requires !ConstantBranch(t, x)
    ensures LiveOnly(t, [x]) == t
  {
    assert LiveOnly(t, [x]).blocks == t.blocks;
  }

  /** Redirecting the branches of ls one after the other is redirecting all of them. */
  lemma LiveOnlyRest(t: Func, ls: seq<Label>)
    requires ls != []
    ensures LiveOnly(LiveOnly(t, [ls[0]]), ls[1..]) == LiveOnly(t, ls)
  {
    var t', x := LiveOnly(t, [ls[0]]), ls[0];
    assert t'.blocks.Keys == t.blocks.Keys;
    forall l | l in t.blocks ensures Redirected(t', ls[1..], l) == Redirected(t, ls, l) {
      assert l in ls <==> l == x || l in ls[1..];
      if l == x {
        assert !ConstantBranch(t', x);
      } else {
        assert t'.blocks[l] == t.blocks[l];
        assert ConstantBranch(t', l) <==> ConstantBranch(t, l);
      }
    }
    assert LiveOnly(t', ls[1..]).blocks == LiveOnly(t, ls).blocks;
  }

  lemma {:induction false} EliminateFollows(g: Func, t: Func, ls: seq<Label>)
    requires Valid(g) && Follows(g, t) && AllApart(t)
    ensures Follows(Eliminate(g, ls), LiveOnly(t, ls)) && AllApart(LiveOnly(t, ls))
    decreases |ls|
  {
    if ls == [] {
      assert LiveOnly(t, ls).blocks == t.blocks;
    } else {
      EliminateAtFollows(g, t, ls[0]);
      EliminateAtCorrect(g, ls[0]);
      EliminateFollows(EliminateAt(g, ls[0]), LiveOnly(t, [ls[0]]), ls[1..]);
      LiveOnlyRest(t, ls);
    }
  }

  // ----- Removing dead blocks -------------------------------------------------------------------------

  lemma LessEdges(f: Func, x: Label, p: Label, q: Label)
    ensures Edges(Less(f, x), p, q) == if p == x then 0 else Edges(f, p, q)
  {
  }

  lemma LessFollows(g: Func, t: Func, x: Label)
    requires Follows(g, t) && AllApart(t)
    ensures Follows(Less(g, x), Less(t, x)) && AllApart(Less(t, x))
  {
    var g', t' := Less(g, x), Less(t, x);
    forall p, q ensures Edges(t', p, q) <= Edges(t, p, q) {
      LessEdges(t, x, p, q);
    }
    assert Fewer(t, t');
    FewerApart(t, t');
    forall l | l in g'.blocks ensures BlockLike(t', l, g'.blocks[l], t'.blocks[l]) {
      assert BlockLike(t, l, g.blocks[l], t.blocks[l]);
      FewerBlock(t, t', l, g.blocks[l]);
    }
  }

  lemma LessRemove(f: Func, y: Label, x: Label)
    requires y in f.blocks && y != x
    ensures Less(RemovePredecessor(f, y, x), x) == RemovePredecessor(Less(f, x), y, x)
  {
    var a, b := DropEntries(f, y, x), DropEntries(Less(f, x), y, x);
    assert Less(a, x).blocks == b.blocks;
    LessErase(a, y, x);
  }

  lemma LessErase(a: Func, y: Label, x: Label)
    requires y in a.blocks && y != x
    ensures Less(ErasePhis(a, y), x) == ErasePhis(Less(a, x), y)
  {
    var b := a.blocks[y].(phis := KeepPhis(a.blocks[y].phis));
    LessSub(a.blocks[y := b], EmptyDefs(a.blocks[y].phis), x);
    assert a.blocks[y := b] - {x} == (a.blocks - {x})[y := b];
  }

  lemma LessSub(blocks: map<Label, Block>, rs: set<Reg>, x: Label)
    ensures SubBlocks(blocks, rs, Undef) - {x} == SubBlocks(blocks - {x}, rs, Undef)
  {
  }

  lemma RemoveOwnDefs(f: Func, y: Label, x: Label)
    requires y in f.blocks && y != x && x in f.blocks
    ensures x in RemovePredecessor(f, y, x).blocks && Defs(RemovePredecessor(f, y, x).blocks[x]) == Defs(f.blocks[x])
  {
    var a := DropEntries(f, y, x);
    SubBlockDefs(a.blocks[x], EmptyDefs(a.blocks[y].phis), Undef);
  }

  /** The entries from x go; there is no edge from x in t. */
  lemma {:induction false} DropSuccessorsFollow(g: Func, t: Func, x: Label, succs: seq<Label>)
    requires x in g.blocks && x !in t.blocks && x !in succs && Follows(Less(g, x), t) && AllApart(t)
    ensures var h := DropSuccessors(g, x, succs);
      x in h.blocks && Follows(Less(h, x), t) && Defs(h.blocks[x]) == Defs(g.blocks[x])
    decreases |succs|
  {
    if succs != [] {
      assert forall y :: y in succs[1..] ==> y in succs;
      var y := succs[0];
      if y in g.blocks {
        LessRemove(g, y, x);
        forall k | 0 <= k < |g.blocks[y].phis| ensures Spare(t, x, y, g.blocks[y].phis[k]) {
          assert Edges(t, x, y) == 0;
        }
        RemoveFollows(Less(g, x), t, y, x);
        RemoveOwnDefs(g, y, x);
        DropSuccessorsFollow(RemovePredecessor(g, y, x), t, x, succs[1..]);
      } else {
        DropSuccessorsFollow(g, t, x, succs[1..]);
      }
    }
  }

  lemma LostRemoved(t: Func, x: Label, rs: set<Reg>)
    requires AllApart(t) && x in t.blocks && rs <= Defs(t.blocks[x])
    ensures forall r :: r in rs ==> Lost(Less(t, x), r)
  {
    forall r, l | r in rs && l in Less(t, x).blocks ensures r !in PhiDefs(Less(t, x).blocks[l].phis) {
      assert Apart(t, l, x);
    }
  }

  lemma DeadSame(g: Func, t: Func, x: Label)
    requires Follows(g, t)
    ensures Dead(g, x) <==> Dead(t, x)
  {
    forall p ensures Edges(g, p, x) == Edges(t, p, x) {
      FollowsEdges(g, t, p, x);
    }
  }

  lemma DeadNotOwn(g: Func, x: Label)
    requires Dead(g, x)
    ensures x !in g.blocks[x].term.succs
  {
    assert Edges(g, x, x) == 0;
    CountIn(g.blocks[x].term.succs, x);
  }

  lemma RemoveDeadAtFollows(g: Func, t: Func, x: Label)
    requires Follows(g, t) && AllApart(t)
    ensures var t' := if Dead(t, x) then Less(t, x) else t; Follows(RemoveDeadAt(g, x), t') && AllApart(t')
  {
    DeadSame(g, t, x);
    if Dead(t, x) {
      var succs := g.blocks[x].term.succs;
      assert BlockLike(t, x, g.blocks[x], t.blocks[x]);
      DeadNotOwn(g, x);
      LessFollows(g, t, x);
      DropSuccessorsFollow(g, Less(t, x), x, succs);
      var h := DropSuccessors(g, x, succs);
      LostRemoved(t, x, Defs(h.blocks[x]));
      SubFollows(Less(h, x), Less(t, x), Defs(h.blocks[x]));
    }
  }

  lemma {:induction false} RemoveDeadFollows(g: Func, t: Func, ls: seq<Label>)
    requires Follows(g, t) && AllApart(t)
    ensures Follows(RemoveDead(g, ls), WithoutDead(t, ls)) && AllApart(WithoutDead(t, ls))
    decreases |ls|
  {
    if ls != [] {
      RemoveDeadAtFollows(g, t, ls[0]);
      RemoveDeadFollows(RemoveDeadAt(g, ls[0]), if Dead(t, ls[0]) then Less(t, ls[0]) else t, ls[1..]);
    }
  }

  // ----- All passes before the merge ------------------------------------------------------------------

  /** What the passes make has the blocks and edges that the skeleton has. */
  lemma {:induction false} PassesFollow(g: Func, t: Func, ls: seq<Label>, passes: seq<Pass>)
    requires Valid(g) && Follows(g, t) && AllApart(t) && SinglePredecessors !in passes
    ensures AfterPasses(g, ls, passes).Some? && Follows(AfterPasses(g, ls, passes).value, Skeleton(t, ls, passes))
    decreases |passes|
  {
    if passes != [] {
      assert passes[0] in passes && forall p :: p in passes[1..] ==> p in passes;
      var h := AfterPass(g, ls, passes[0]).value;
      PassCorrect(g, ls, passes[0]);
      if passes[0] == CondBranches {
        EliminateFollows(g, t, ls);
        PassesFollow(h, LiveOnly(t, ls), Remaining(ls, h.blocks.Keys), passes[1..]);
      } else {
        RemoveDeadFollows(g, t, ls);
        PassesFollow(h, WithoutDead(t, ls), Remaining(ls, h.blocks.Keys), passes[1..]);
      }
    }
  }
}
