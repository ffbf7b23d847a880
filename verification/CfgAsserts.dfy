/** Exactly when a merge pass runs into the assertion of replaceAllUsesWith, told from the
    function before the pass. */
module CfgAsserts {
  import opened Wrappers
  import opened SsaFunction
  import opened SsaRewrite
  import opened SsaForward
  import opened SsaSplice
  import opened CfgPasses
  import opened CfgUpdates
  import opened CfgFixpoint
  import opened SimplifyCfg
  import opened CfgOrder

  // ----- The blocks a sweep merges ----------------------------------------------------------------

  ghost predicate Link(f: Func, p: seq<Label>, i: int) {
    0 <= i < |p| - 1 && Mergeable(f, p[i], p[i + 1])
  }

  predicate Between(gone: set<Label>, p: seq<Label>, i: int) {
    0 < i < |p| - 1 ==> p[i] in gone
  }

  /** Each block is mergeable into the next, and those between the first and the last are gone. */
  ghost predicate Chain(f: Func, gone: set<Label>, p: seq<Label>) {
    && |p| >= 2
    && (forall i {:trigger Link(f, p, i)} :: 0 <= i < |p| - 1 ==> Link(f, p, i))
    && (forall i {:trigger Between(gone, p, i)} :: Between(gone, p, i))
  }

  /** Through the blocks that are gone, l is its own predecessor: it is what is left of a circle. */
  ghost predicate Closes(f: Func, gone: set<Label>, l: Label) {
    exists p :: Chain(f, gone, p) && p[0] == l && p[|p| - 1] == l
  }

  /** A sweep that comes to l after the blocks in gone merges it. */
  ghost predicate Merges(f: Func, gone: set<Label>, l: Label) {
    l !in gone && HasMergeable(f, l) && !Closes(f, gone, l)
  }

  /** The blocks a sweep over ls merges, in order: the mergeable ones, but for the last block
      of every circle that it goes all the way round. */
  ghost function Merged(f: Func, gone: set<Label>, ls: seq<Label>): (r: seq<Label>)
    ensures forall l :: l in r ==> l in ls && l !in gone && HasMergeable(f, l)
    decreases |ls|
  {
    if ls == [] then []
    else (if Merges(f, gone, ls[0]) then [ls[0]] else []) + Merged(f, gone + {ls[0]}, ls[1..])
  }

  /** A block that cannot be merged is on no chain but at its end. */
  lemma {:induction false} MergedSkip(f: Func, bb: Label, gone: set<Label>, ls: seq<Label>)
    requires !HasMergeable(f, bb)
    ensures Merged(f, gone + {bb}, ls) == Merged(f, gone, ls)
    decreases |ls|
  {
    if ls != [] {
      SkipCloses(f, bb, gone, ls[0]);
      MergedSkip(f, bb, gone + {ls[0]}, ls[1..]);
      assert gone + {ls[0]} + {bb} == gone + {bb} + {ls[0]};
    }
  }

  lemma SkipCloses(f: Func, bb: Label, gone: set<Label>, l: Label)
    requires !HasMergeable(f, bb)
    ensures Closes(f, gone + {bb}, l) <==> Closes(f, gone, l)
  {
    if p :| Chain(f, gone + {bb}, p) && p[0] == l && p[|p| - 1] == l {
      forall i ensures Between(gone, p, i) {
        if 0 < i < |p| - 1 {
          assert Link(f, p, i) && Between(gone + {bb}, p, i);
        }
      }
      assert Chain(f, gone, p);
    }
    if p :| Chain(f, gone, p) && p[0] == l && p[|p| - 1] == l {
      forall i ensures Between(gone + {bb}, p, i) {
        assert Between(gone, p, i);
      }
      assert Chain(f, gone + {bb}, p);
    }
  }

  // ----- What is mergeable after a merge ---------------------------------------------------------

  /** What the predecessor of a block was before bb was merged into pred. */
  function Unmerged(d: Label, bb: Label, pred: Label): Label {
    if d == pred then bb else d
  }

  lemma StillMergeable(f: Func, bb: Label, pred: Label, c: Label, d: Label)
    requires Valid(f) && Mergeable(f, bb, pred) && MergeInto(f, bb, pred).Some?
    ensures Mergeable(MergeInto(f, bb, pred).value, c, d)
      <==> c != bb && d != bb && c != d && Mergeable(f, c, Unmerged(d, bb, pred))
  {
    var g := MergeInto(f, bb, pred).value;
    if Mergeable(g, c, d) {
      var d0 := MergeCreatesNone(f, bb, pred, c, d);
      MergedEdges(f, bb, pred, d, c);
    }
    if c != bb && d != bb && c != d && Mergeable(f, c, Unmerged(d, bb, pred)) {
      MergedEdges(f, bb, pred, c, c);
      MergedSuccs(f, bb, pred, d);
      forall q ensures Edges(g, q, c) == if q == d then 1 else 0 {
        MergedEdges(f, bb, pred, q, c);
        assert Edges(f, bb, c) == if bb == Unmerged(d, bb, pred) then 1 else 0;
        assert Edges(f, q, c) == if q == Unmerged(d, bb, pred) then 1 else 0;
      }
    }
  }

  /** A block is the successor of one block only. */
  lemma OnlySuccessor(f: Func, c: Label, c': Label, d: Label)
    requires Mergeable(f, c, d) && Mergeable(f, c', d)
    ensures c == c'
  {
    assert f.blocks[d].term.succs == [c] && f.blocks[d].term.succs == [c'];
  }

  /** A chain without bb. */
  lemma {:induction false} Contract(f: Func, g: Func, bb: Label, pred: Label, gone: set<Label>, p: seq<Label>) returns (p': seq<Label>)
    requires Valid(f) && Mergeable(f, bb, pred) && MergeInto(f, bb, pred) == Some(g) && !Mergeable(f, pred, bb)
    requires Chain(f, gone + {bb}, p) && p[0] != bb && p[|p| - 1] != bb
    ensures Chain(g, gone, p') && p'[0] == p[0] && p'[|p'| - 1] == p[|p| - 1]
    decreases |p|
  {
    assert Link(f, p, 0);
    if p[1] == bb {
      assert Link(f, p, 1);
      MergeableUnique(f, bb, pred, p[2]);
      StillMergeable(f, bb, pred, p[0], pred);
      p' := ContractRest(f, g, bb, pred, gone, p, 2);
    } else {
      assert f.blocks[pred].term.succs == [bb] && p[1] != pred;
      StillMergeable(f, bb, pred, p[0], p[1]);
      p' := ContractRest(f, g, bb, pred, gone, p, 1);
    }
  }

  lemma {:induction false} ContractRest(f: Func, g: Func, bb: Label, pred: Label, gone: set<Label>, p: seq<Label>, k: nat) returns (p': seq<Label>)
    requires Valid(f) && Mergeable(f, bb, pred) && MergeInto(f, bb, pred) == Some(g) && !Mergeable(f, pred, bb)
    requires Chain(f, gone + {bb}, p) && p[|p| - 1] != bb && 0 < k < |p| && p[k] != bb
    requires Mergeable(g, p[0], p[k])
    ensures Chain(g, gone, p') && p'[0] == p[0] && p'[|p'| - 1] == p[|p| - 1]
    decreases |p|, 0
  {
    if k == |p| - 1 {
      p' := [p[0], p[k]];
      Pair(g, gone, p[0], p[k]);
    } else {
      ChainRest(f, gone + {bb}, p, k);
      var q := Contract(f, g, bb, pred, gone, p[k..]);
      ChainCons(g, gone, p[0], q);
      p' := [p[0]] + q;
    }
  }

  lemma Pair(f: Func, gone: set<Label>, c: Label, d: Label)
    requires Mergeable(f, c, d)
    ensures Chain(f, gone, [c, d])
  {
  }

  lemma ChainRest(f: Func, gone: set<Label>, p: seq<Label>, k: nat)
    requires Chain(f, gone, p) && k < |p| - 1
    ensures Chain(f, gone, p[k..]) && p[k..][0] == p[k] && p[k..][|p| - k - 1] == p[|p| - 1]
    ensures k > 0 ==> p[k] in gone
  {
    var rest := p[k..];
    forall i | 0 <= i < |rest| - 1 ensures Link(f, rest, i) {
      assert Link(f, p, k + i);
    }
    forall i ensures Between(gone, rest, i) {
      assert Between(gone, p, k + i);
    }
    assert Between(gone, p, k);
  }

  lemma ChainCons(f: Func, gone: set<Label>, c: Label, p: seq<Label>)
    requires Chain(f, gone, p) && Mergeable(f, c, p[0]) && p[0] in gone
    ensures Chain(f, gone, [c] + p) && ([c] + p)[0] == c && ([c] + p)[|p|] == p[|p| - 1]
  {
    var q := [c] + p;
    forall i | 0 <= i < |q| - 1 ensures Link(f, q, i) {
      if i > 0 {
        assert Link(f, p, i - 1);
      }
    }
    forall i ensures Between(gone, q, i) {
      assert Between(gone, p, i - 1);
    }
  }

  /** The chain with bb again. */
  lemma {:induction false} Expand(f: Func, bb: Label, pred: Label, gone: set<Label>, p: seq<Label>) returns (p': seq<Label>)
    requires Valid(f) && Mergeable(f, bb, pred) && MergeInto(f, bb, pred).Some?
    requires Chain(MergeInto(f, bb, pred).value, gone, p)
    ensures Chain(f, gone + {bb}, p') && p'[0] == p[0] && p'[|p'| - 1] == p[|p| - 1]
    decreases |p|
  {
    var g := MergeInto(f, bb, pred).value;
    assert Link(g, p, 0);
    StillMergeable(f, bb, pred, p[0], p[1]);
    if |p| == 2 {
      Pair(f, gone + {bb}, bb, pred);
      if p[1] == pred {
        ChainCons(f, gone + {bb}, p[0], [bb, pred]);
        p' := [p[0]] + [bb, pred];
      } else {
        Pair(f, gone + {bb}, p[0], p[1]);
        p' := [p[0], p[1]];
      }
    } else {
      ChainRest(g, gone, p, 1);
      var q := Expand(f, bb, pred, gone, p[1..]);
      if p[1] == pred {
        ChainCons(f, gone + {bb}, bb, q);
        ChainCons(f, gone + {bb}, p[0], [bb] + q);
        p' := [p[0]] + ([bb] + q);
      } else {
        ChainCons(f, gone + {bb}, p[0], q);
        p' := [p[0]] + q;
      }
    }
  }

  /** The rest of a sweep merges the same blocks whether or not bb has been merged. */
  lemma MergesAfter(f: Func, bb: Label, pred: Label, gone: set<Label>, l: Label)
    requires Valid(f) && Mergeable(f, bb, pred) && MergeInto(f, bb, pred).Some?
    ensures Merges(MergeInto(f, bb, pred).value, gone, l) <==> Merges(f, gone + {bb}, l)
  {
    var g := MergeInto(f, bb, pred).value;
    if d :| Mergeable(g, l, d) {
      StillMergeable(f, bb, pred, l, d);
      assert Mergeable(f, l, Unmerged(d, bb, pred));
    }
    if l != bb {
      if Mergeable(f, pred, bb) && l == pred {
        Pair(f, gone + {bb}, bb, pred);
        ChainCons(f, gone + {bb}, pred, [bb, pred]);
        forall d ensures !Mergeable(g, l, d) {
          StillMergeable(f, bb, pred, l, d);
          if Mergeable(g, l, d) {
            MergeableUnique(f, l, bb, Unmerged(d, bb, pred));
          }
        }
      } else {
        if d :| Mergeable(f, l, d) {
          if d == pred {
            OnlySuccessor(f, l, bb, pred);
          }
          StillMergeable(f, bb, pred, l, Rename(d, bb, pred));
        }
        ClosesAfter(f, bb, pred, gone, l);
      }
    }
  }

  lemma ClosesAfter(f: Func, bb: Label, pred: Label, gone: set<Label>, l: Label)
    requires Valid(f) && Mergeable(f, bb, pred) && MergeInto(f, bb, pred).Some?
    requires l != bb && !(Mergeable(f, pred, bb) && l == pred)
    ensures Closes(MergeInto(f, bb, pred).value, gone, l) <==> Closes(f, gone + {bb}, l)
  {
    if p :| Chain(MergeInto(f, bb, pred).value, gone, p) && p[0] == l && p[|p| - 1] == l {
      var p' := Expand(f, bb, pred, gone, p);
    }
    if p :| Chain(f, gone + {bb}, p) && p[0] == l && p[|p| - 1] == l {
      if Mergeable(f, pred, bb) {
        ChainElsewhere(f, MergeInto(f, bb, pred).value, bb, pred, gone, p);
      } else {
        var p' := Contract(f, MergeInto(f, bb, pred).value, bb, pred, gone, p);
      }
    }
  }

  /** A chain that does not end in the circle of bb and pred is nowhere in it. */
  lemma ChainElsewhere(f: Func, g: Func, bb: Label, pred: Label, gone: set<Label>, p: seq<Label>)
    requires Valid(f) && Mergeable(f, bb, pred) && MergeInto(f, bb, pred) == Some(g) && Mergeable(f, pred, bb)
    requires Chain(f, gone + {bb}, p) && p[|p| - 1] !in {bb, pred}
    ensures Chain(g, gone, p)
  {
    forall i | 0 <= i < |p| ensures p[i] !in {bb, pred} {
      if i < |p| - 1 {
        ChainRest(f, gone + {bb}, p, i);
        TwoCircle(f, bb, pred, gone + {bb}, p[i..]);
      }
    }
    forall i | 0 <= i < |p| - 1 ensures Link(g, p, i) {
      assert Link(f, p, i) && p[i + 1] !in {bb, pred};
      StillMergeable(f, bb, pred, p[i], p[i + 1]);
    }
    forall i ensures Between(gone, p, i) {
      assert Between(gone + {bb}, p, i);
    }
  }

  lemma {:induction false} TwoCircle(f: Func, bb: Label, pred: Label, gone: set<Label>, p: seq<Label>)
    requires Mergeable(f, bb, pred) && Mergeable(f, pred, bb) && Chain(f, gone, p)
    ensures p[0] in {bb, pred} ==> p[|p| - 1] in {bb, pred}
    decreases |p|
  {
    assert Link(f, p, 0);
    if p[0] in {bb, pred} {
      MergeableUnique(f, p[0], p[1], if p[0] == bb then pred else bb);
      if |p| > 2 {
        ChainRest(f, gone, p, 1);
        TwoCircle(f, bb, pred, gone, p[1..]);
      }
    }
  }

  lemma {:induction false} MergedAfter(f: Func, bb: Label, pred: Label, gone: set<Label>, ls: seq<Label>)
    requires Valid(f) && Mergeable(f, bb, pred) && MergeInto(f, bb, pred).Some?
    ensures Merged(MergeInto(f, bb, pred).value, gone, ls) == Merged(f, gone + {bb}, ls)
    decreases |ls|
  {
    if ls != [] {
      MergesAfter(f, bb, pred, gone, ls[0]);
      MergedAfter(f, bb, pred, gone + {ls[0]}, ls[1..]);
      assert gone + {ls[0]} + {bb} == gone + {bb} + {ls[0]};
    }
  }

  // ----- The PHI nodes of those blocks ---------------------------------------------------------------

  /** The PHI nodes of some blocks, one block after the other. */
  function PhisOf(f: Func, ls: seq<Label>): seq<Phi>
    decreases |ls|
  {
    if ls == [] then [] else (if ls[0] in f.blocks then f.blocks[ls[0]].phis else []) + PhisOf(f, ls[1..])
  }

  /** Where the k-th of them is. */
  lemma {:induction false} PhisOfAt(f: Func, ls: seq<Label>, k: nat) returns (l: Label, j: nat)
    requires k < |PhisOf(f, ls)|
    ensures l in ls && l in f.blocks && j < |f.blocks[l].phis| && PhisOf(f, ls)[k] == f.blocks[l].phis[j]
    decreases |ls|
  {
    var first := if ls[0] in f.blocks then f.blocks[ls[0]].phis else [];
    if k < |first| {
      l, j := ls[0], k;
    } else {
      l, j := PhisOfAt(f, ls[1..], k - |first|);
    }
  }

  lemma SubPhisApp(a: seq<Phi>, b: seq<Phi>, rs: set<Reg>, x: Value)
    ensures SubPhis(a + b, rs, x) == SubPhis(a, rs, x) + SubPhis(b, rs, x)
  {
  }

  lemma {:induction false} PhisOfForward(f: Func, bb: Label, ls: seq<Label>)
    requires bb in f.blocks && bb !in ls && f.blocks[bb].phis != [] && f.blocks[bb].phis[0].incoming != []
    ensures PhisOf(ForwardPhi(f, bb), ls) == SubPhis(PhisOf(f, ls), {f.blocks[bb].phis[0].dst}, f.blocks[bb].phis[0].incoming[0].value)
    decreases |ls|
  {
    if ls != [] {
      var p, v := f.blocks[bb].phis[0].dst, f.blocks[bb].phis[0].incoming[0].value;
      PhisOfForward(f, bb, ls[1..]);
      var phis := if ls[0] in f.blocks then f.blocks[ls[0]].phis else [];
      SubPhisApp(phis, PhisOf(f, ls[1..]), {p}, v);
      ForwardBlock(f, bb, ls[0]);
    }
  }

  lemma ForwardBlock(f: Func, bb: Label, l: Label)
    requires bb in f.blocks && f.blocks[bb].phis != [] && f.blocks[bb].phis[0].incoming != []
    ensures var b, g := f.blocks[bb], ForwardPhi(f, bb);
      && (l in g.blocks <==> l in f.blocks)
      && (l in f.blocks ==>
            g.blocks[l] == SubBlock(if l == bb then b.(phis := b.phis[1..]) else f.blocks[l], {b.phis[0].dst}, b.phis[0].incoming[0].value))
  {
  }

  lemma {:induction false} PhisOfSplice(f: Func, bb: Label, pred: Label, ls: seq<Label>)
    requires bb in f.blocks && pred in f.blocks && pred != bb && bb !in ls
    ensures PhisOf(Splice(f, bb, pred), ls) == RenamePhis(PhisOf(f, ls), bb, pred)
    decreases |ls|
  {
    if ls != [] {
      PhisOfSplice(f, bb, pred, ls[1..]);
      SpliceBlock(f, bb, pred, ls[0]);
      RenamePhisApp(if ls[0] in f.blocks then f.blocks[ls[0]].phis else [], PhisOf(f, ls[1..]), bb, pred);
    }
  }

  lemma SpliceBlock(f: Func, bb: Label, pred: Label, l: Label)
    requires bb in f.blocks && pred in f.blocks && pred != bb && l != bb
    ensures l in Splice(f, bb, pred).blocks <==> l in f.blocks
    ensures l in f.blocks ==> Splice(f, bb, pred).blocks[l].phis == RenamePhis(f.blocks[l].phis, bb, pred)
  {
  }

  lemma RenamePhisApp(a: seq<Phi>, b: seq<Phi>, bb: Label, pred: Label)
    ensures RenamePhis(a + b, bb, pred) == RenamePhis(a, bb, pred) + RenamePhis(b, bb, pred)
  {
  }

  lemma RenameAcyclic(phis: seq<Phi>, bb: Label, pred: Label)
    ensures Acyclic(RenamePhis(phis, bb, pred)) <==> Acyclic(phis)
  {
    var renamed := RenamePhis(phis, bb, pred);
    forall rank: Reg -> nat, k: nat | k < |phis| ensures RankedPhi(renamed, k, rank) <==> RankedPhi(phis, k, rank) {
      assert forall j :: 0 <= j < |phis| ==> renamed[j].dst == phis[j].dst;
      assert phis[k].incoming != [] ==> renamed[k].incoming[0].value == phis[k].incoming[0].value;
    }
    if rank: Reg -> nat :| Ranked(phis, rank) {
      forall k | 0 <= k < |phis| ensures RankedPhi(renamed, k, rank) {
        assert RankedPhi(phis, k, rank);
      }
      assert Ranked(renamed, rank);
    }
    if rank: Reg -> nat :| Ranked(renamed, rank) {
      forall k | 0 <= k < |phis| ensures RankedPhi(phis, k, rank) {
        assert RankedPhi(renamed, k, rank);
      }
      assert Ranked(phis, rank);
    }
  }

  lemma {:induction false} PhiDefsAt(phis: seq<Phi>, k: nat)
    requires k < |phis|
    ensures phis[k].dst in PhiDefs(phis)
  {
    if k < |phis| - 1 {
      PhiDefsAt(phis[..|phis| - 1], k);
    }
  }

  /** Every PHI node of the blocks has a value to be replaced by. */
  ghost predicate Carrying(f: Func, ls: seq<Label>) {
    forall l, k {:trigger f.blocks[l].phis[k]} :: l in ls && l in f.blocks && 0 <= k < |f.blocks[l].phis| ==> f.blocks[l].phis[k].incoming != []
  }

  lemma CarryingForward(f: Func, bb: Label, ls: seq<Label>)
    requires bb in f.blocks && bb !in ls && f.blocks[bb].phis != [] && f.blocks[bb].phis[0].incoming != [] && Carrying(f, ls)
    ensures Carrying(ForwardPhi(f, bb), ls)
  {
    var g := ForwardPhi(f, bb);
    forall l, k | l in ls && l in g.blocks && 0 <= k < |g.blocks[l].phis| ensures g.blocks[l].phis[k].incoming != [] {
      ForwardBlock(f, bb, l);
      assert f.blocks[l].phis[k].incoming != [];
    }
  }

  /** The first PHI node of bb writes what no other one does. */
  lemma FirstDistinct(f: Func, av: Avail, bb: Label, ls: seq<Label>)
    requires Wf(f, av) && bb in f.blocks && bb !in ls && f.blocks[bb].phis != []
    ensures var phis := f.blocks[bb].phis + PhisOf(f, ls);
      forall k :: 0 < k < |phis| ==> phis[k].dst != phis[0].dst
  {
    var own, others := f.blocks[bb].phis, PhisOf(f, ls);
    assert BlockOk(f, av, bb);
    OncePhisFirst(own);
    PhiDefsAt(own, 0);
    forall k | 0 <= k < |others| ensures others[k].dst != own[0].dst {
      var l, j := PhisOfAt(f, ls, k);
      PhiDefsAt(f.blocks[l].phis, j);
      assert Apart(f, bb, l);
    }
  }

  /** Replacing the PHI nodes of bb, and then those of other blocks, goes well exactly when
      none of their values go round in a circle. */
  lemma {:induction false} ForwardAllAcyclic(f: Func, av: Avail, bb: Label, pred: Label, ls: seq<Label>)
    requires Wf(f, av) && SoleEdge(f, bb, pred) && bb !in ls && Carrying(f, ls)
    ensures Acyclic(f.blocks[bb].phis + PhisOf(f, ls))
      <==> ForwardAll(f, bb).Some? && Acyclic(PhisOf(ForwardAll(f, bb).value, ls))
    decreases |f.blocks[bb].phis|
  {
    var own := f.blocks[bb].phis;
    var phis := own + PhisOf(f, ls);
    EachIncoming(f, av, bb, pred);
    if own == [] {
      assert phis == PhisOf(f, ls);
    } else if own[0].incoming[0].value == Use(own[0].dst) {
      SelfNotAcyclic(phis);
    } else {
      ForwardOneAcyclic(f, av, bb, pred, ls);
      var p, v, g := own[0].dst, own[0].incoming[0].value, ForwardPhi(f, bb);
      FirstCopies(f, av, bb, pred);
      ForwardKeeps(f, av, bb, pred);
      ForwardWf(f, av, bb, pred, p, v);
      CarryingForward(f, bb, ls);
      ForwardAllAcyclic(g, Forwarded(av, bb, p, v), bb, pred, ls);
    }
  }

  lemma ForwardOneAcyclic(f: Func, av: Avail, bb: Label, pred: Label, ls: seq<Label>)
    requires Wf(f, av) && SoleEdge(f, bb, pred) && bb !in ls && Carrying(f, ls) && f.blocks[bb].phis != []
    requires f.blocks[bb].phis[0].incoming != [] && f.blocks[bb].phis[0].incoming[0].value != Use(f.blocks[bb].phis[0].dst)
    ensures var g := ForwardPhi(f, bb);
      Acyclic(f.blocks[bb].phis + PhisOf(f, ls)) <==> Acyclic(g.blocks[bb].phis + PhisOf(g, ls))
  {
    var own := f.blocks[bb].phis;
    var phis := own + PhisOf(f, ls);
    PhisForwarded(f, bb, ls);
    FirstDistinct(f, av, bb, ls);
    EachIncoming(f, av, bb, pred);
    AllCarrying(f, bb, ls);
    FirstAcyclic(phis);
  }

  lemma PhisForwarded(f: Func, bb: Label, ls: seq<Label>)
    requires bb in f.blocks && bb !in ls && f.blocks[bb].phis != [] && f.blocks[bb].phis[0].incoming != []
    ensures var own, g := f.blocks[bb].phis, ForwardPhi(f, bb);
      g.blocks[bb].phis + PhisOf(g, ls) == SubPhis((own + PhisOf(f, ls))[1..], {own[0].dst}, own[0].incoming[0].value)
  {
    var own, g := f.blocks[bb].phis, ForwardPhi(f, bb);
    OwnForwarded(f, g, bb);
    PhisOfForward(f, bb, ls);
    RestForwarded(own, PhisOf(f, ls), g.blocks[bb].phis, PhisOf(g, ls), {own[0].dst}, own[0].incoming[0].value);
  }

  lemma OwnForwarded(f: Func, g: Func, bb: Label)
    requires bb in f.blocks && f.blocks[bb].phis != [] && f.blocks[bb].phis[0].incoming != [] && g == ForwardPhi(f, bb)
    ensures bb in g.blocks
    ensures g.blocks[bb].phis == SubPhis(f.blocks[bb].phis[1..], {f.blocks[bb].phis[0].dst}, f.blocks[bb].phis[0].incoming[0].value)
  {
    ForwardBlock(f, bb, bb);
  }

  lemma RestForwarded(own: seq<Phi>, others: seq<Phi>, own': seq<Phi>, others': seq<Phi>, rs: set<Reg>, x: Value)
    requires own != [] && own' == SubPhis(own[1..], rs, x) && others' == SubPhis(others, rs, x)
    ensures own' + others' == SubPhis((own + others)[1..], rs, x)
  {
    SubPhisApp(own[1..], others, rs, x);
    TailApp(own, others);
  }

  lemma TailApp(own: seq<Phi>, others: seq<Phi>)
    requires own != []
    ensures (own + others)[1..] == own[1..] + others
  {
  }

  lemma SelfNotAcyclic(phis: seq<Phi>)
    requires phis != [] && phis[0].incoming != [] && phis[0].incoming[0].value == Use(phis[0].dst)
    ensures !Acyclic(phis)
  {
    forall rank: Reg -> nat ensures !Ranked(phis, rank) {
      assert !RankedPhi(phis, 0, rank);
    }
  }

  lemma FirstAcyclic(phis: seq<Phi>)
    requires phis != [] && (forall k :: 0 <= k < |phis| ==> phis[k].incoming != [])
    requires phis[0].incoming[0].value != Use(phis[0].dst) && forall k :: 0 < k < |phis| ==> phis[k].dst != phis[0].dst
    ensures Acyclic(phis) <==> Acyclic(SubPhis(phis[1..], {phis[0].dst}, phis[0].incoming[0].value))
  {
    if rank: Reg -> nat :| Ranked(phis, rank) {
      RankedRest(phis, rank);
    }
    if rank: Reg -> nat :| Ranked(SubPhis(phis[1..], {phis[0].dst}, phis[0].incoming[0].value), rank) {
      var rank' := RankFirst(phis, rank);
    }
  }

  lemma AllCarrying(f: Func, bb: Label, ls: seq<Label>)
    requires bb in f.blocks && Carrying(f, ls) && forall k :: 0 <= k < |f.blocks[bb].phis| ==> f.blocks[bb].phis[k].incoming != []
    ensures var phis := f.blocks[bb].phis + PhisOf(f, ls); forall k :: 0 <= k < |phis| ==> phis[k].incoming != []
  {
    var others := PhisOf(f, ls);
    forall k | 0 <= k < |others| ensures others[k].incoming != [] {
      var l, j := PhisOfAt(f, ls, k);
    }
  }

  // ----- A whole sweep -------------------------------------------------------------------------------

  lemma MergeIntoAcyclic(f: Func, bb: Label, pred: Label, ls: seq<Label>)
    requires Valid(f) && Mergeable(f, bb, pred) && bb !in ls && forall l :: l in ls ==> HasMergeable(f, l)
    ensures Acyclic(PhisOf(f, [bb] + ls))
      <==> MergeInto(f, bb, pred).Some? && Acyclic(PhisOf(MergeInto(f, bb, pred).value, ls))
  {
    var av :| Wf(f, av);
    MergeableSole(f, bb, pred);
    forall l, k | l in ls && l in f.blocks && 0 <= k < |f.blocks[l].phis| ensures f.blocks[l].phis[k].incoming != [] {
      var d :| Mergeable(f, l, d);
      MergeableSole(f, l, d);
      EachIncoming(f, av, l, d);
    }
    assert ([bb] + ls)[1..] == ls;
    ForwardAllAcyclic(f, av, bb, pred, ls);
    if ForwardAll(f, bb).Some? {
      var h := ForwardAll(f, bb).value;
      var av1 := ForwardAllCorrect(f, av, bb, pred);
      PhisOfSplice(h, bb, pred, ls);
      RenameAcyclic(PhisOf(h, ls), bb, pred);
    }
  }

  /** A merge pass runs into the assertion exactly when the values of the PHI nodes of the
      blocks it merges go round in a circle. */
  lemma {:induction false} MergeExact(f: Func, ls: seq<Label>)
    requires Valid(f)
    ensures Merge(f, ls).Some? <==> Acyclic(PhisOf(f, Merged(f, {}, ls)))
    decreases |ls|
  {
    if ls == [] {
      assert Ranked([], (r: Reg) => 0);
    } else {
      var bb := ls[0];
      assert {} + {bb} == {bb};
      if HasMergeable(f, bb) {
        var pred :| Mergeable(f, bb, pred);
        MergeAtIs(f, bb, pred);
        var rest := Merged(f, {bb}, ls[1..]);
        FirstMerges(f, bb);
        MergeIntoAcyclic(f, bb, pred, rest);
        if MergeInto(f, bb, pred).Some? {
          MergeAtCorrect(f, bb);
          MergedAfter(f, bb, pred, {}, ls[1..]);
          MergeExact(MergeInto(f, bb, pred).value, ls[1..]);
        }
      } else {
        MergedSkip(f, bb, {}, ls[1..]);
        MergeExact(f, ls[1..]);
        assert Merged(f, {}, ls) == [] + Merged(f, {bb}, ls[1..]) == Merged(f, {}, ls[1..]);
        assert MergeAt(f, bb) == Some(f);
      }
    }
  }

  lemma FirstMerges(f: Func, bb: Label)
    ensures !Closes(f, {}, bb)
  {
    forall p | |p| >= 2 && p[0] == bb && p[|p| - 1] == bb ensures !Chain(f, {}, p) {
      if |p| == 2 {
        assert !Link(f, p, 0);
      } else {
        assert !Between({}, p, 1);
      }
    }
  }
}
