/** Any list of passes, the merge pass any number of times.  A merge can make a branch
    constant, by replacing a PHI node that is its condition, so it takes more to be sure:
    blocks must stay reachable whatever constants the PHI nodes may pass on. */
module CfgConstants {
  import opened SsaFunction
  import opened SsaRewrite
  import opened SsaRuns
  import opened SsaDead
  import opened SsaEdges
  import opened SsaForward
  import opened SsaSplice
  import opened CfgPasses
  import opened CfgFixpoint
  import opened CfgLasting
  import opened CfgOrder
  import opened SimplifyCfg

  /** Which constants a register may turn out to be. */
  type Constants = set<(Reg, int)>

  /** Whatever constant the value may be, p may be. */
  ghost predicate FedBy(can: Constants, p: Reg, v: Value) {
    match v
    case Const(n) => (p, n) in can
    case Use(r) => forall n: int {:trigger (r, n) in can} :: (r, n) in can ==> (p, n) in can
    case Undef => true
  }

  ghost predicate PhiFed(can: Constants, phi: Phi) {
    forall j {:trigger phi.incoming[j]} :: 0 <= j < |phi.incoming| ==> FedBy(can, phi.dst, phi.incoming[j].value)
  }

  ghost predicate PhisFed(can: Constants, phis: seq<Phi>) {
    forall k {:trigger PhiFed(can, phis[k])} :: 0 <= k < |phis| ==> PhiFed(can, phis[k])
  }

  /** The constants follow the PHI nodes. */
  ghost predicate Fed(f: Func, can: Constants) {
    forall l {:trigger PhisFed(can, f.blocks[l].phis)} :: l in f.blocks ==> PhisFed(can, f.blocks[l].phis)
  }

  function Discarded(n: int): nat { if n % 2 == 1 then 1 else 0 }

  /** The i-th successor might be discarded one day. */
  ghost predicate MayGo(can: Constants, t: Term, i: nat) {
    t.kind.CondJump? && match t.kind.cond
      case Const(n) => i == Discarded(n)
      case Use(r) => exists n: int {:trigger (r, n) in can} :: (r, n) in can && i == Discarded(n)
      case Undef => false
  }

  ghost predicate Stays(f: Func, can: Constants, p: Label, i: nat) {
    p in f.blocks && i < |f.blocks[p].term.succs| && !MayGo(can, f.blocks[p].term, i)
  }

  ghost predicate SureEdge(f: Func, can: Constants, p: Label, q: Label) {
    exists i: nat :: Stays(f, can, p, i) && f.blocks[p].term.succs[i] == q
  }

  ghost predicate SurePath(f: Func, can: Constants, p: seq<Label>) {
    && |p| > 0 && p[0] == f.entry && f.entry in f.blocks
    && forall k {:trigger p[k]} :: 0 < k < |p| ==> SureEdge(f, can, p[k - 1], p[k]) && p[k] in f.blocks
  }

  ghost predicate SurelyReachable(f: Func, can: Constants, l: Label) {
    exists p :: SurePath(f, can, p) && p[|p| - 1] == l
  }

  /** Every block can be reached over edges that stay, whatever the passes find to be constant. */
  ghost predicate Lasting(f: Func, can: Constants) {
    Fed(f, can) && forall l {:trigger SurelyReachable(f, can, l)} :: l in f.blocks ==> SurelyReachable(f, can, l)
  }

  // ----- Edges that stay are edges ------------------------------------------------------------------

  lemma SureIsReachable(f: Func, can: Constants, l: Label)
    requires SurelyReachable(f, can, l)
    ensures Reachable(f, l)
  {
    var p :| SurePath(f, can, p) && p[|p| - 1] == l;
    forall k | 0 < k < |p| ensures Edges(f, p[k - 1], p[k]) > 0 && p[k] in f.blocks {
      var i: nat :| Stays(f, can, p[k - 1], i) && f.blocks[p[k - 1]].term.succs[i] == p[k];
      var succs := f.blocks[p[k - 1]].term.succs;
      assert succs[i] in succs;
      CountIn(succs, p[k]);
    }
    assert Path(f, p);
  }

  lemma LastingReachable(f: Func, can: Constants)
    requires Lasting(f, can)
    ensures AllReachable(f)
  {
    forall l | l in f.blocks ensures Reachable(f, l) {
      SureIsReachable(f, can, l);
    }
  }

  /** Where every sure edge still is one, the same blocks are surely reachable. */
  lemma SameSure(f: Func, g: Func, can: Constants, l: Label)
    requires g.entry == f.entry && g.blocks.Keys == f.blocks.Keys && SurelyReachable(f, can, l)
    requires forall p, q {:trigger SureEdge(f, can, p, q)} :: SureEdge(f, can, p, q) ==> SureEdge(g, can, p, q)
    ensures SurelyReachable(g, can, l)
  {
    var p :| SurePath(f, can, p) && p[|p| - 1] == l;
    assert SurePath(g, can, p);
  }

  // ----- Replacing values ---------------------------------------------------------------------------

  /** Replacing registers by what feeds them keeps the constants right. */
  lemma FedBySub(can: Constants, p: Reg, v: Value, rs: set<Reg>, x: Value)
    requires FedBy(can, p, v) && forall r :: r in rs ==> FedBy(can, r, x)
    ensures FedBy(can, p, Sub(v, rs, x))
  {
    if v.Use? && v.r in rs {
      assert FedBy(can, v.r, x);
    }
  }

  lemma PhisFedSub(can: Constants, phis: seq<Phi>, rs: set<Reg>, x: Value)
    requires PhisFed(can, phis) && forall r :: r in rs ==> FedBy(can, r, x)
    ensures PhisFed(can, SubPhis(phis, rs, x))
  {
    var phis' := SubPhis(phis, rs, x);
    forall k | 0 <= k < |phis'| ensures PhiFed(can, phis'[k]) {
      assert PhiFed(can, phis[k]);
      forall j | 0 <= j < |phis'[k].incoming| ensures FedBy(can, phis'[k].dst, phis'[k].incoming[j].value) {
        FedBySub(can, phis[k].dst, phis[k].incoming[j].value, rs, x);
      }
    }
  }

  lemma MayGoSub(can: Constants, t: Term, i: nat, rs: set<Reg>, x: Value)
    requires MayGo(can, SubTerm(t, rs, x), i) && forall r :: r in rs ==> FedBy(can, r, x)
    ensures MayGo(can, t, i)
  {
    if t.kind.cond.Use? && t.kind.cond.r in rs {
      assert FedBy(can, t.kind.cond.r, x);
    }
  }

  lemma LastingSub(f: Func, g: Func, can: Constants, rs: set<Reg>, x: Value)
    requires Lasting(f, can) && g == f.(blocks := SubBlocks(f.blocks, rs, x)) && forall r :: r in rs ==> FedBy(can, r, x)
    ensures Lasting(g, can)
  {
    forall l | l in g.blocks ensures PhisFed(can, g.blocks[l].phis) {
      PhisFedSub(can, f.blocks[l].phis, rs, x);
    }
    forall p, q | SureEdge(f, can, p, q) ensures SureEdge(g, can, p, q) {
      var i: nat :| Stays(f, can, p, i) && f.blocks[p].term.succs[i] == q;
      if MayGo(can, g.blocks[p].term, i) {
        MayGoSub(can, f.blocks[p].term, i, rs, x);
      }
      SubBlockDefs(f.blocks[p], rs, x);
      assert Stays(g, can, p, i);
    }
    assert g.blocks.Keys == f.blocks.Keys;
    forall l | l in g.blocks ensures SurelyReachable(g, can, l) {
      SameSure(f, g, can, l);
    }
  }

  /** Giving a block other PHI nodes. */
  lemma LastingPhis(f: Func, g: Func, can: Constants, x: Label, phis: seq<Phi>)
    requires Lasting(f, can) && x in f.blocks && g == f.(blocks := f.blocks[x := f.blocks[x].(phis := phis)]) && PhisFed(can, phis)
    ensures Lasting(g, can)
  {
    forall l | l in g.blocks ensures PhisFed(can, g.blocks[l].phis) {
      assert l != x ==> PhisFed(can, f.blocks[l].phis);
    }
    forall p, q | SureEdge(f, can, p, q) ensures SureEdge(g, can, p, q) {
      var i: nat :| Stays(f, can, p, i) && f.blocks[p].term.succs[i] == q;
      assert Stays(g, can, p, i);
    }
    assert g.blocks.Keys == f.blocks.Keys;
    forall l | l in g.blocks ensures SurelyReachable(g, can, l) {
      SameSure(f, g, can, l);
    }
  }

  // ----- Eliminating branches ------------------------------------------------------------------------

  lemma {:induction false} RemoveFromFed(can: Constants, p: Reg, incoming: seq<Incoming>, l: Label)
    requires forall j :: 0 <= j < |incoming| ==> FedBy(can, p, incoming[j].value)
    ensures forall j :: 0 <= j < |RemoveFrom(incoming, l)| ==> FedBy(can, p, RemoveFrom(incoming, l)[j].value)
  {
    if incoming != [] && incoming[0].from != l {
      RemoveFromFed(can, p, incoming[1..], l);
    }
  }

  lemma DropFromFed(can: Constants, phis: seq<Phi>, l: Label)
    requires PhisFed(can, phis)
    ensures PhisFed(can, DropFrom(phis, l))
  {
    forall k | 0 <= k < |phis| ensures PhiFed(can, DropFrom(phis, l)[k]) {
      assert PhiFed(can, phis[k]);
      RemoveFromFed(can, phis[k].dst, phis[k].incoming, l);
    }
  }

  lemma {:induction false} KeepPhisFed(can: Constants, phis: seq<Phi>)
    requires PhisFed(can, phis)
    ensures PhisFed(can, KeepPhis(phis))
  {
    if phis != [] {
      var n := |phis| - 1;
      assert PhiFed(can, phis[n]);
      forall k | 0 <= k < n ensures PhiFed(can, phis[..n][k]) {
        assert PhiFed(can, phis[k]);
      }
      KeepPhisFed(can, phis[..n]);
      var kept := KeepPhis(phis[..n]);
      forall k | 0 <= k < |KeepPhis(phis)| ensures PhiFed(can, KeepPhis(phis)[k]) {
        if k < |kept| {
          assert PhiFed(can, kept[k]);
        }
      }
    }
  }

  lemma LastingRemove(s: Func, can: Constants, x: Label, l: Label)
    requires Lasting(s, can) && x in s.blocks
    ensures Lasting(RemovePredecessor(s, x, l), can)
  {
    var t := DropEntries(s, x, l);
    DropFromFed(can, s.blocks[x].phis, l);
    LastingPhis(s, t, can, x, DropFrom(s.blocks[x].phis, l));
    var phis := t.blocks[x].phis;
    KeepPhisFed(can, phis);
    var u := t.(blocks := t.blocks[x := t.blocks[x].(phis := KeepPhis(phis))]);
    LastingPhis(t, u, can, x, KeepPhis(phis));
    LastingSub(u, ErasePhis(t, x), can, EmptyDefs(phis), Undef);
  }

  lemma LastingEliminateAt(f: Func, can: Constants, l: Label)
    requires Lasting(f, can)
    ensures Lasting(EliminateAt(f, l), can)
  {
    if ConstantBranch(f, l) {
      var i := RemovedIndex(f, l);
      var s := SetTerm(f, l, Jump, i);
      SetJump(f, l, i, s);
      LastingJump(f, s, can, l, i);
      LastingRemove(s, can, f.blocks[l].term.succs[i], l);
    }
  }

  lemma LastingJump(f: Func, s: Func, can: Constants, l: Label, i: nat)
    requires Lasting(f, can) && ConstantBranch(f, l) && i == RemovedIndex(f, l)
    requires SameBut(f, s, l) && s.blocks[l].term == Term(Jump, [f.blocks[l].term.succs[1 - i]])
    ensures Lasting(s, can)
  {
    forall k | k in s.blocks ensures PhisFed(can, s.blocks[k].phis) {
      assert PhisFed(can, f.blocks[k].phis);
    }
    forall p, q | SureEdge(f, can, p, q) ensures SureEdge(s, can, p, q) {
      var j: nat :| Stays(f, can, p, j) && f.blocks[p].term.succs[j] == q;
      assert Stays(s, can, p, if p == l then 0 else j);
    }
    forall k | k in s.blocks ensures SurelyReachable(s, can, k) {
      SameSure(f, s, can, k);
    }
  }

  lemma {:induction false} LastingEliminate(f: Func, can: Constants, ls: seq<Label>)
    requires Lasting(f, can)
    ensures Lasting(Eliminate(f, ls), can)
    decreases |ls|
  {
    if ls != [] {
      LastingEliminateAt(f, can, ls[0]);
      LastingEliminate(EliminateAt(f, ls[0]), can, ls[1..]);
    }
  }

  // ----- Merging --------------------------------------------------------------------------------------

  lemma LastingForward(f: Func, can: Constants, bb: Label)
    requires Lasting(f, can) && bb in f.blocks && f.blocks[bb].phis != [] && f.blocks[bb].phis[0].incoming != []
    ensures Lasting(ForwardPhi(f, bb), can)
  {
    var phis := f.blocks[bb].phis;
    assert PhisFed(can, phis) && PhiFed(can, phis[0]);
    forall k | 0 <= k < |phis[1..]| ensures PhiFed(can, phis[1..][k]) {
      assert PhiFed(can, phis[k + 1]);
    }
    var u := f.(blocks := f.blocks[bb := f.blocks[bb].(phis := phis[1..])]);
    LastingPhis(f, u, can, bb, phis[1..]);
    assert FedBy(can, phis[0].dst, phis[0].incoming[0].value);
    LastingSub(u, ForwardPhi(f, bb), can, {phis[0].dst}, phis[0].incoming[0].value);
  }

  lemma {:induction false} LastingForwardAll(f: Func, can: Constants, bb: Label)
    requires Lasting(f, can) && bb in f.blocks && ForwardAll(f, bb).Some?
    ensures Lasting(ForwardAll(f, bb).value, can)
    decreases |f.blocks[bb].phis|
  {
    if f.blocks[bb].phis != [] {
      ForwardShape(f, bb);
      LastingForward(f, can, bb);
      LastingForwardAll(ForwardPhi(f, bb), can, bb);
    }
  }

  lemma RenameFed(can: Constants, phis: seq<Phi>, bb: Label, pred: Label)
    requires PhisFed(can, phis)
    ensures PhisFed(can, RenamePhis(phis, bb, pred))
  {
    forall k | 0 <= k < |phis| ensures PhiFed(can, RenamePhis(phis, bb, pred)[k]) {
      assert PhiFed(can, phis[k]);
    }
  }

  /** A sure path without bb. */
  lemma {:induction false} SplicedPath(f: Func, g: Func, can: Constants, bb: Label, pred: Label, p: seq<Label>) returns (p': seq<Label>)
    requires SoleEdge(f, bb, pred) && g == Splice(f, bb, pred) && SurePath(f, can, p)
    ensures SurePath(g, can, p') && p'[|p'| - 1] == Rename(p[|p| - 1], bb, pred)
    decreases |p|
  {
    var n := |p| - 1;
    if n == 0 {
      p' := p;
      SplicedHas(f, g, bb, pred, f.entry);
    } else {
      SurePathInit(f, can, p);
      p' := SplicedPath(f, g, can, bb, pred, p[..n]);
      SplicedEdge(f, g, can, bb, pred, p[n - 1], p[n]);
      if p[n] != bb {
        SplicedHas(f, g, bb, pred, p[n]);
        SurePathSnoc(g, can, p', p[n]);
        p' := p' + [p[n]];
      }
    }
  }

  lemma SplicedHas(f: Func, g: Func, bb: Label, pred: Label, l: Label)
    requires SoleEdge(f, bb, pred) && g == Splice(f, bb, pred) && l in f.blocks && l != bb
    ensures g.entry == f.entry && f.entry != bb && l in g.blocks
  {
  }

  lemma SurePathInit(f: Func, can: Constants, p: seq<Label>)
    requires SurePath(f, can, p) && |p| > 1
    ensures var n := |p| - 1;
      SurePath(f, can, p[..n]) && p[..n][n - 1] == p[n - 1] && SureEdge(f, can, p[n - 1], p[n]) && p[n] in f.blocks
  {
    var q := p[..|p| - 1];
    forall k {:trigger q[k]} | 0 < k < |q| ensures SureEdge(f, can, q[k - 1], q[k]) && q[k] in f.blocks {
      assert q[k] == p[k];
    }
    assert p[|p| - 1] in f.blocks;
  }

  lemma SurePathSnoc(f: Func, can: Constants, p: seq<Label>, l: Label)
    requires SurePath(f, can, p) && SureEdge(f, can, p[|p| - 1], l) && l in f.blocks
    ensures SurePath(f, can, p + [l]) && (p + [l])[|p|] == l
  {
    var q := p + [l];
    forall k {:trigger q[k]} | 0 < k < |q| ensures SureEdge(f, can, q[k - 1], q[k]) && q[k] in f.blocks {
      if k < |p| {
        assert q[k] == p[k];
      }
    }
  }

  lemma SplicedEdge(f: Func, g: Func, can: Constants, bb: Label, pred: Label, p: Label, q: Label)
    requires SoleEdge(f, bb, pred) && g == Splice(f, bb, pred) && SureEdge(f, can, p, q)
    ensures if q == bb then p == pred else SureEdge(g, can, Rename(p, bb, pred), q)
  {
    var i: nat :| Stays(f, can, p, i) && f.blocks[p].term.succs[i] == q;
    if q == bb {
      CountIn(f.blocks[p].term.succs, bb);
      assert Edges(f, p, bb) > 0;
    } else {
      assert p != pred;
      assert Stays(g, can, Rename(p, bb, pred), i);
    }
  }

  lemma LastingSplice(f: Func, g: Func, can: Constants, bb: Label, pred: Label)
    requires Lasting(f, can) && SoleEdge(f, bb, pred) && g == Splice(f, bb, pred)
    ensures Lasting(g, can)
  {
    forall l | l in g.blocks ensures PhisFed(can, g.blocks[l].phis) {
      assert PhisFed(can, f.blocks[l].phis);
      RenameFed(can, f.blocks[l].phis, bb, pred);
    }
    forall l | l in g.blocks ensures SurelyReachable(g, can, l) {
      assert SurelyReachable(f, can, l);
      var p :| SurePath(f, can, p) && p[|p| - 1] == l;
      var p' := SplicedPath(f, g, can, bb, pred, p);
    }
  }

  lemma LastingMergeAt(f: Func, can: Constants, bb: Label)
    requires Valid(f) && Lasting(f, can)
    ensures MergeAt(f, bb).Some? && Lasting(MergeAt(f, bb).value, can)
  {
    LastingReachable(f, can);
    MergeAtSucceeds(f, bb);
    if exists pred :: Mergeable(f, bb, pred) {
      var pred :| Mergeable(f, bb, pred) && MergeAt(f, bb) == MergeInto(f, bb, pred);
      LastingMergeInto(f, can, bb, pred);
    }
  }

  lemma LastingMergeInto(f: Func, can: Constants, bb: Label, pred: Label)
    requires Valid(f) && Lasting(f, can) && Mergeable(f, bb, pred) && MergeInto(f, bb, pred).Some?
    ensures Lasting(MergeInto(f, bb, pred).value, can)
  {
    var av :| Wf(f, av);
    MergeableSole(f, bb, pred);
    var av1 := ForwardAllCorrect(f, av, bb, pred);
    LastingForwardAll(f, can, bb);
    LastingSplice(ForwardAll(f, bb).value, MergeInto(f, bb, pred).value, can, bb, pred);
  }

  lemma {:induction false} LastingMerge(f: Func, can: Constants, ls: seq<Label>)
    requires Valid(f) && Lasting(f, can)
    ensures Merge(f, ls).Some? && Lasting(Merge(f, ls).value, can)
    decreases |ls|
  {
    if ls != [] {
      LastingMergeAt(f, can, ls[0]);
      MergeAtCorrect(f, ls[0]);
      LastingMerge(MergeAt(f, ls[0]).value, can, ls[1..]);
    }
  }

  // ----- Any list of passes ---------------------------------------------------------------------------

  /** Where every block is lastingly reachable, no list of passes meets the assertion. */
  lemma {:induction false} AnyPassesSucceed(f: Func, can: Constants, ls: seq<Label>, passes: seq<Pass>)
    requires Valid(f) && Lasting(f, can)
    ensures AfterPasses(f, ls, passes).Some? && Lasting(AfterPasses(f, ls, passes).value, can)
    decreases |passes|
  {
    if passes != [] {
      match passes[0] {
        case SinglePredecessors =>
          LastingMerge(f, can, ls);
          MergeCorrect(f, ls);
        case DeadBlocks =>
          LastingReachable(f, can);
          NothingDead(f, ls);
        case CondBranches =>
          LastingEliminate(f, can, ls);
          EliminateCorrect(f, ls);
      }
      var g := AfterPass(f, ls, passes[0]).value;
      AnyPassesSucceed(g, can, Remaining(ls, g.blocks.Keys), passes[1..]);
    }
  }

  lemma AnyPassesCorrect(f: Func, can: Constants, ls: seq<Label>, passes: seq<Pass>)
    requires Valid(f) && Lasting(f, can)
    ensures AfterPasses(f, ls, passes).Some? && Simplifies(f, AfterPasses(f, ls, passes).value)
  {
    AnyPassesSucceed(f, can, ls, passes);
    PassesCorrect(f, ls, passes);
  }

  /** Where no PHI node has a constant among its values, it is enough that every block can be
      reached over edges that no constant branch discards. */
  lemma WithoutConstantPhis(f: Func, ls: seq<Label>)
    requires Valid(f) && AllLive(f, ls) && (forall l :: l in f.blocks ==> l in ls) && Fed(f, {})
    ensures Lasting(f, {})
  {
    forall l | l in f.blocks ensures SurelyReachable(f, {}, l) {
      var p :| LivePath(f, ls, p) && p[|p| - 1] == l;
      forall k | 0 < k < |p| ensures SureEdge(f, {}, p[k - 1], p[k]) {
        assert LiveEdge(f, ls, p[k - 1], p[k]);
        LiveIsSure(f, ls, p[k - 1], p[k]);
      }
      assert SurePath(f, {}, p);
    }
  }

  lemma LiveIsSure(f: Func, ls: seq<Label>, p: Label, q: Label)
    requires Valid(f) && LiveEdge(f, ls, p, q) && p in ls
    ensures SureEdge(f, {}, p, q)
  {
    var i: nat :| Live(f, ls, p, i) && f.blocks[p].term.succs[i] == q;
    if f.blocks[p].term.kind.CondJump? && f.blocks[p].term.kind.cond.Const? {
      ConstantBranchValid(f, p);
    }
    assert Stays(f, {}, p, i);
  }
}
