/** The tutorial pass on a function that is changed in place. */
module SimplifyCfg {
  import opened Wrappers
  import opened SsaFunction
  import opened SsaRewrite
  import opened SsaRuns
  import opened SsaDead
  import opened SsaEdges
  import opened SsaForward
  import opened SsaSplice
  import opened CfgPasses
  import opened CfgUpdates
  import opened CfgFixpoint

  // ----- Whether a pass changes anything ---------------------------------------------------------

  ghost predicate EliminateChanges(f: Func, ls: seq<Label>)
    decreases |ls|
  {
    ls != [] && (ConstantBranch(f, ls[0]) || EliminateChanges(EliminateAt(f, ls[0]), ls[1..]))
  }

  ghost predicate RemoveDeadChanges(f: Func, ls: seq<Label>)
    decreases |ls|
  {
    ls != [] && (Dead(f, ls[0]) || RemoveDeadChanges(RemoveDeadAt(f, ls[0]), ls[1..]))
  }

  ghost predicate MergeChanges(f: Func, ls: seq<Label>)
    decreases |ls|
  {
    ls != [] && ((exists p :: Mergeable(f, ls[0], p)) || (MergeAt(f, ls[0]).Some? && MergeChanges(MergeAt(f, ls[0]).value, ls[1..])))
  }

  // ----- Small facts for the methods -----------------------------------------------------------------

  lemma RemoveKeepsJump(f: Func, x: Label, l: Label)
    requires x in f.blocks && l in f.blocks && f.blocks[l].term.kind.Jump?
    ensures var g := RemovePredecessor(f, x, l); l in g.blocks && g.blocks[l].term == f.blocks[l].term
  {
  }

  lemma SameButSetTerm(f: Func, g: Func, l: Label)
    requires SameBut(f, g, l)
    ensures g == f.(blocks := f.blocks[l := f.blocks[l].(term := g.blocks[l].term)])
  {
    assert g.blocks == f.blocks[l := f.blocks[l].(term := g.blocks[l].term)];
  }

  lemma EliminateIs(f: Func, l: Label)
    requires ConstantBranch(f, l)
    ensures var i := RemovedIndex(f, l);
      EliminateAt(f, l) == RemovePredecessor(SetTerm(f, l, Jump, i), f.blocks[l].term.succs[i], l)
  {
  }

  /** Dropping the edge before or after the terminator is replaced makes no difference. */
  lemma TermAfterRemove(f: Func, l: Label)
    requires ConstantBranch(f, l)
    ensures var i := RemovedIndex(f, l);
      var succs := f.blocks[l].term.succs;
      var g := RemovePredecessor(f, succs[i], l);
      && l in g.blocks && g.blocks.Keys == f.blocks.Keys
      && EliminateAt(f, l) == g.(blocks := g.blocks[l := g.blocks[l].(term := Term(Jump, [succs[1 - i]]))])
  {
    var x := f.blocks[l].term.succs[RemovedIndex(f, l)];
    EliminatedJump(f, l);
    RemovePredecessorShape(f, x, l);
    SameButSetTerm(RemovePredecessor(f, x, l), EliminateAt(f, l), l);
  }

  lemma EliminatedJump(f: Func, l: Label)
    requires ConstantBranch(f, l)
    ensures var i := RemovedIndex(f, l);
      var succs := f.blocks[l].term.succs;
      SameBut(RemovePredecessor(f, succs[i], l), EliminateAt(f, l), l) && EliminateAt(f, l).blocks[l].term == Term(Jump, [succs[1 - i]])
  {
    var i := RemovedIndex(f, l);
    var x := f.blocks[l].term.succs[i];
    var s := SetTerm(f, l, Jump, i);
    EliminateIs(f, l);
    SetJump(f, l, i, s);
    SameButRemove(f, s, l, x);
    RemoveKeepsJump(s, x, l);
  }

  lemma SetJump(f: Func, l: Label, i: nat, s: Func)
    requires l in f.blocks && |f.blocks[l].term.succs| == 2 && i < 2 && s == SetTerm(f, l, Jump, i)
    ensures SameBut(f, s, l) && s.blocks[l].term == Term(Jump, [f.blocks[l].term.succs[1 - i]])
  {
    assert Without(f.blocks[l].term.succs, i) == [f.blocks[l].term.succs[1 - i]];
  }

  lemma {:induction false} InstDefsLast(insts: seq<Inst>)
    requires insts != []
    ensures InstDefs(insts) == InstDefs(insts[..|insts| - 1]) + {insts[|insts| - 1].dst}
  {
    var last := |insts| - 1;
    InstDefsApp(insts[..last], insts[last..]);
    assert insts == insts[..last] + insts[last..];
    assert insts[last..][1..] == [];
  }

  lemma SubOthers(blocks: map<Label, Block>, l: Label, b: Block, rs: set<Reg>)
    requires l in blocks
    ensures SubBlocks(blocks[l := b], rs, Undef) - {l} == SubBlocks(blocks - {l}, rs, Undef)
  {
  }

  lemma RenameSubPhis(phis: seq<Phi>, rs: set<Reg>, x: Value, bb: Label, pred: Label)
    ensures RenamePhis(SubPhis(phis, rs, x), bb, pred) == SubPhis(RenamePhis(phis, bb, pred), rs, x)
  {
    forall k | 0 <= k < |phis|
      ensures RenameIncoming(SubIncoming(phis[k].incoming, rs, x), bb, pred) == SubIncoming(RenameIncoming(phis[k].incoming, bb, pred), rs, x)
    {
    }
  }

  /** Renaming an incoming block and replacing a value do not interfere. */
  lemma RenameSub(blocks: map<Label, Block>, rs: set<Reg>, x: Value, bb: Label, pred: Label)
    ensures RenameBlocks(SubBlocks(blocks, rs, x), bb, pred) == SubBlocks(RenameBlocks(blocks, bb, pred), rs, x)
  {
    forall l | l in blocks
      ensures SubBlock(blocks[l], rs, x).(phis := RenamePhis(SubPhis(blocks[l].phis, rs, x), bb, pred))
           == SubBlock(blocks[l].(phis := RenamePhis(blocks[l].phis, bb, pred)), rs, x)
    {
      RenameSubPhis(blocks[l].phis, rs, x, bb, pred);
    }
  }

  /** One forwarding step on the renamed function. */
  lemma RenameForward(h: Func, bb: Label, pred: Label)
    requires bb in h.blocks && |h.blocks[bb].phis| > 0 && |h.blocks[bb].phis[0].incoming| > 0
    ensures var blocks := RenameBlocks(h.blocks, bb, pred);
      var pn := blocks[bb].phis[0];
      && pn.dst == h.blocks[bb].phis[0].dst && |pn.incoming| > 0 && pn.incoming[0].value == h.blocks[bb].phis[0].incoming[0].value
      && RenameBlocks(ForwardPhi(h, bb).blocks, bb, pred)
        == SubBlocks(blocks[bb := blocks[bb].(phis := blocks[bb].phis[1..])], {pn.dst}, pn.incoming[0].value)
  {
    var b := h.blocks[bb];
    var trimmed := h.blocks[bb := b.(phis := b.phis[1..])];
    RenameSub(trimmed, {b.phis[0].dst}, b.phis[0].incoming[0].value, bb, pred);
    var blocks := RenameBlocks(h.blocks, bb, pred);
    assert RenamePhis(b.phis[1..], bb, pred) == RenamePhis(b.phis, bb, pred)[1..];
    assert RenameBlocks(trimmed, bb, pred) == blocks[bb := blocks[bb].(phis := blocks[bb].phis[1..])];
  }

  /** bb has gone into pred. */
  function JoinedBlocks(blocks: map<Label, Block>, bb: Label, pred: Label): map<Label, Block>
    requires bb in blocks && pred in blocks
  {
    blocks[pred := Block(blocks[pred].phis, blocks[pred].insts + blocks[bb].insts, blocks[bb].term)] - {bb}
  }

  lemma RenameJoin(h: Func, bb: Label, pred: Label, blocks: map<Label, Block>)
    requires bb in h.blocks && pred in h.blocks && pred != bb && blocks == RenameBlocks(h.blocks, bb, pred)
    ensures bb in blocks && pred in blocks && blocks.Keys == h.blocks.Keys
    ensures Splice(h, bb, pred) == Func(h.entry, h.params, JoinedBlocks(blocks, bb, pred))
  {
    var joined := h.blocks[pred := Joined(h, bb, pred)] - {bb};
    var renamed := JoinedBlocks(blocks, bb, pred);
    assert renamed.Keys == h.blocks.Keys - {bb};
    forall l | l in joined ensures renamed[l] == joined[l].(phis := RenamePhis(joined[l].phis, bb, pred)) {
      if l == pred {
        assert joined[l] == Joined(h, bb, pred);
      } else {
        assert joined[l] == h.blocks[l] && renamed[l] == blocks[l];
      }
    }
    assert RenameBlocks(joined, bb, pred) == renamed;
  }

  predicate Distinct(ls: seq<Label>) {
    forall i, j :: 0 <= i < j < |ls| ==> ls[i] != ls[j]
  }

  function RemoveLabel(ls: seq<Label>, l: Label): (r: seq<Label>)
    ensures forall k :: k in r <==> k in ls && k != l
  {
    if ls == [] then [] else (if ls[0] == l then [] else [ls[0]]) + RemoveLabel(ls[1..], l)
  }

  /** The labels of ls that are in keep. */
  function Remaining(ls: seq<Label>, keep: set<Label>): (r: seq<Label>)
    ensures forall k :: k in r <==> k in ls && k in keep
  {
    if ls == [] then [] else (if ls[0] in keep then [ls[0]] else []) + Remaining(ls[1..], keep)
  }

  lemma {:induction false} RemainingLess(ls: seq<Label>, keep: set<Label>, l: Label)
    ensures RemoveLabel(Remaining(ls, keep), l) == Remaining(ls, keep - {l})
  {
    if ls != [] {
      RemainingLess(ls[1..], keep, l);
      if ls[0] in keep {
        assert Remaining(ls, keep)[1..] == Remaining(ls[1..], keep);
      } else {
        assert Remaining(ls, keep) == Remaining(ls[1..], keep);
      }
    }
  }

  lemma {:induction false} RemainingTwice(ls: seq<Label>, keep: set<Label>, fewer: set<Label>)
    requires fewer <= keep
    ensures Remaining(Remaining(ls, keep), fewer) == Remaining(ls, fewer)
  {
    if ls != [] {
      RemainingTwice(ls[1..], keep, fewer);
      if ls[0] in keep {
        assert Remaining(ls, keep)[1..] == Remaining(ls[1..], keep);
      } else {
        assert Remaining(ls, keep) == Remaining(ls[1..], keep);
      }
    }
  }

  lemma SuffixFirst(ls: seq<Label>, i: nat)
    requires i < |ls|
    ensures ls[i..] == [ls[i]] + ls[i + 1..]
  {
  }

  /** The labels from the i-th on are still to come, and all of them are in keep. */
  ghost predicate Pending(ls: seq<Label>, i: nat, keep: set<Label>) {
    forall open {:trigger Unseal(open)} :: Unseal(open) ==> Distinct(ls) && forall k :: i <= k < |ls| ==> ls[k] in keep
  }

  lemma {:induction false} RemainingAll(ls: seq<Label>, keep: set<Label>)
    requires forall l :: l in ls ==> l in keep
    ensures Remaining(ls, keep) == ls
  {
    if ls != [] {
      RemainingAll(ls[1..], keep);
    }
  }

  lemma {:induction false} RemainingDistinct(ls: seq<Label>, keep: set<Label>)
    requires Distinct(ls)
    ensures Distinct(Remaining(ls, keep))
  {
    if ls != [] {
      RemainingDistinct(ls[1..], keep);
      var rest := Remaining(ls[1..], keep);
      var r := Remaining(ls, keep);
      forall i, j | 0 <= i < j < |r| ensures r[i] != r[j] {
        if ls[0] in keep {
          assert r[j] == rest[j - 1] && rest[j - 1] in rest;
        }
      }
    }
  }

  /** States of a pass are described by facts behind this trigger: they are looked into
      only where a proof says Unseal(true). */
  ghost predicate Unseal(open: bool) { open }

  /** f is f0 after the first blocks of ls; the rest of the pass is still to come. */
  ghost predicate Eliminating(f0: Func, ls: seq<Label>, f: Func, rest: seq<Label>, changed: bool, updates: seq<Update>) {
    Valid(f) && forall open {:trigger Unseal(open)} :: Unseal(open) ==> EliminatingNow(f0, ls, f, rest, changed, updates)
  }

  ghost predicate EliminatingNow(f0: Func, ls: seq<Label>, f: Func, rest: seq<Label>, changed: bool, updates: seq<Update>) {
    && Eliminate(f, rest) == Eliminate(f0, ls)
    && updates + EliminatePassLog(f, rest) == EliminatePassLog(f0, ls)
    && ((changed || EliminateChanges(f, rest)) <==> EliminateChanges(f0, ls))
  }

  lemma EliminatingStep(f0: Func, ls: seq<Label>, f: Func, l: Label, rest: seq<Label>, changed: bool, updates: seq<Update>)
    requires Eliminating(f0, ls, f, [l] + rest, changed, updates)
    ensures Eliminating(f0, ls, EliminateAt(f, l), rest, changed || ConstantBranch(f, l), updates + EliminateLog(f, l))
  {
    EliminateAtCorrect(f, l);
    EliminateCons(f, l, rest);
    EliminatingOn(f0, ls, f, l, rest, changed, updates, EliminateAt(f, l), EliminateLog(f, l), ConstantBranch(f, l));
  }

  lemma EliminateCons(f: Func, l: Label, rest: seq<Label>)
    ensures Eliminate(f, [l] + rest) == Eliminate(EliminateAt(f, l), rest)
    ensures EliminatePassLog(f, [l] + rest) == EliminateLog(f, l) + EliminatePassLog(EliminateAt(f, l), rest)
    ensures EliminateChanges(f, [l] + rest) <==> ConstantBranch(f, l) || EliminateChanges(EliminateAt(f, l), rest)
  {
    assert ([l] + rest)[1..] == rest;
  }

  lemma EliminatingOn(f0: Func, ls: seq<Label>, f: Func, l: Label, rest: seq<Label>, changed: bool, updates: seq<Update>,
                      g: Func, log: seq<Update>, constant: bool)
    requires Eliminating(f0, ls, f, [l] + rest, changed, updates) && Valid(g)
    requires Eliminate(f, [l] + rest) == Eliminate(g, rest)
    requires EliminatePassLog(f, [l] + rest) == log + EliminatePassLog(g, rest)
    requires EliminateChanges(f, [l] + rest) <==> constant || EliminateChanges(g, rest)
    ensures Eliminating(f0, ls, g, rest, changed || constant, updates + log)
  {
    assert Unseal(true);
    assert updates + (log + EliminatePassLog(g, rest)) == (updates + log) + EliminatePassLog(g, rest);
  }

  lemma EliminatingStart(f: Func, ls: seq<Label>)
    requires Valid(f)
    ensures Eliminating(f, ls, f, ls, false, [])
  {
    assert Unseal(true);
    assert [] + EliminatePassLog(f, ls) == EliminatePassLog(f, ls);
  }

  lemma EliminatingEnd(f0: Func, ls: seq<Label>, f: Func, changed: bool, updates: seq<Update>)
    requires Eliminating(f0, ls, f, [], changed, updates)
    ensures Valid(f) && f == Eliminate(f0, ls) && updates == EliminatePassLog(f0, ls)
    ensures changed <==> EliminateChanges(f0, ls)
  {
    assert Unseal(true);
    assert updates + [] == updates;
  }

  /** The same for the pass that removes dead blocks. */
  ghost predicate Removing(f0: Func, ls: seq<Label>, f: Func, rest: seq<Label>, changed: bool, updates: seq<Update>) {
    Valid(f) && forall open {:trigger Unseal(open)} :: Unseal(open) ==> RemovingNow(f0, ls, f, rest, changed, updates)
  }

  ghost predicate RemovingNow(f0: Func, ls: seq<Label>, f: Func, rest: seq<Label>, changed: bool, updates: seq<Update>) {
    && RemoveDead(f, rest) == RemoveDead(f0, ls)
    && updates + RemoveDeadPassLog(f, rest) == RemoveDeadPassLog(f0, ls)
    && ((changed || RemoveDeadChanges(f, rest)) <==> RemoveDeadChanges(f0, ls))
  }

  lemma RemovingStart(f: Func, ls: seq<Label>)
    requires Valid(f)
    ensures Removing(f, ls, f, ls, false, [])
  {
    assert Unseal(true);
    assert [] + RemoveDeadPassLog(f, ls) == RemoveDeadPassLog(f, ls);
  }

  lemma RemovingStep(f0: Func, ls: seq<Label>, f: Func, l: Label, rest: seq<Label>, changed: bool, updates: seq<Update>)
    requires Removing(f0, ls, f, [l] + rest, changed, updates)
    ensures Removing(f0, ls, RemoveDeadAt(f, l), rest, changed || Dead(f, l), updates + RemoveDeadLog(f, l))
  {
    RemoveDeadAtCorrect(f, l);
    RemoveDeadCons(f, l, rest);
    RemovingOn(f0, ls, f, l, rest, changed, updates, RemoveDeadAt(f, l), RemoveDeadLog(f, l), Dead(f, l));
  }

  lemma RemoveDeadCons(f: Func, l: Label, rest: seq<Label>)
    ensures RemoveDead(f, [l] + rest) == RemoveDead(RemoveDeadAt(f, l), rest)
    ensures RemoveDeadPassLog(f, [l] + rest) == RemoveDeadLog(f, l) + RemoveDeadPassLog(RemoveDeadAt(f, l), rest)
    ensures RemoveDeadChanges(f, [l] + rest) <==> Dead(f, l) || RemoveDeadChanges(RemoveDeadAt(f, l), rest)
  {
    assert ([l] + rest)[1..] == rest;
  }

  lemma RemovingOn(f0: Func, ls: seq<Label>, f: Func, l: Label, rest: seq<Label>, changed: bool, updates: seq<Update>,
                   g: Func, log: seq<Update>, dead: bool)
    requires Removing(f0, ls, f, [l] + rest, changed, updates) && Valid(g)
    requires RemoveDead(f, [l] + rest) == RemoveDead(g, rest)
    requires RemoveDeadPassLog(f, [l] + rest) == log + RemoveDeadPassLog(g, rest)
    requires RemoveDeadChanges(f, [l] + rest) <==> dead || RemoveDeadChanges(g, rest)
    ensures Removing(f0, ls, g, rest, changed || dead, updates + log)
  {
    assert Unseal(true);
    assert updates + (log + RemoveDeadPassLog(g, rest)) == (updates + log) + RemoveDeadPassLog(g, rest);
  }

  lemma RemovingEnd(f0: Func, ls: seq<Label>, f: Func, changed: bool, updates: seq<Update>)
    requires Removing(f0, ls, f, [], changed, updates)
    ensures Valid(f) && f == RemoveDead(f0, ls) && updates == RemoveDeadPassLog(f0, ls)
    ensures changed <==> RemoveDeadChanges(f0, ls)
  {
    assert Unseal(true);
    assert updates + [] == updates;
  }

  /** Erasing one more instruction of a block that is going away. */
  lemma EraseStep(blocks: map<Label, Block>, bb: Label, b: Block, r: Reg, rest: map<Label, Block>, erased: set<Reg>)
    requires bb in blocks && blocks - {bb} == SubBlocks(rest, erased, Undef)
    ensures SubBlocks(blocks[bb := b], {r}, Undef) - {bb} == SubBlocks(rest, erased + {r}, Undef)
  {
    SubOthers(blocks, bb, b, {r});
    SubTwice(rest, erased, {r});
  }

  /** In valid code every successor is in the function. */
  lemma SuccsValid(f: Func, l: Label)
    requires Valid(f) && l in f.blocks
    ensures forall k :: 0 <= k < |f.blocks[l].term.succs| ==> f.blocks[l].term.succs[k] in f.blocks
  {
    var av :| Wf(f, av);
    forall k | 0 <= k < |f.blocks[l].term.succs| ensures f.blocks[l].term.succs[k] in f.blocks {
      DropEdgeTarget(f, av, l, k);
    }
  }

  /** f is f0 after the edges succs[..i] have been taken away. */
  ghost predicate Leaving(f0: Func, bb: Label, succs: seq<Label>, f: Func, i: nat, updates: seq<Update>)
    requires i <= |succs|
  {
    forall open {:trigger Unseal(open)} :: Unseal(open) ==>
      DropSuccessors(f, bb, succs[i..]) == DropSuccessors(f0, bb, succs)
      && updates + DeleteEach(bb, succs[i..]) == DeleteEach(bb, succs)
  }

  lemma LeavingStart(f: Func, bb: Label, succs: seq<Label>)
    ensures Leaving(f, bb, succs, f, 0, [])
  {
    assert succs[0..] == succs && [] + DeleteEach(bb, succs) == DeleteEach(bb, succs);
  }

  lemma LeavingStep(f0: Func, bb: Label, succs: seq<Label>, f: Func, i: nat, updates: seq<Update>)
    requires i < |succs| && succs[i] in f.blocks && Leaving(f0, bb, succs, f, i, updates)
    ensures Leaving(f0, bb, succs, RemovePredecessor(f, succs[i], bb), i + 1, updates + [Delete(bb, succs[i])])
  {
    assert Unseal(true);
    DropNext(f, bb, succs, i);
    var log := DeleteEach(bb, succs[i + 1..]);
    assert updates + ([Delete(bb, succs[i])] + log) == (updates + [Delete(bb, succs[i])]) + log;
  }

  lemma LeavingEnd(f0: Func, bb: Label, succs: seq<Label>, f: Func, updates: seq<Update>)
    requires Leaving(f0, bb, succs, f, |succs|, updates)
    ensures f == DropSuccessors(f0, bb, succs) && updates == DeleteEach(bb, succs)
  {
    assert Unseal(true) && updates + [] == updates;
  }

  lemma DropNext(f: Func, l: Label, succs: seq<Label>, i: nat)
    requires i < |succs| && succs[i] in f.blocks
    ensures DropSuccessors(f, l, succs[i..]) == DropSuccessors(RemovePredecessor(f, succs[i], l), l, succs[i + 1..])
    ensures DeleteEach(l, succs[i..]) == [Delete(l, succs[i])] + DeleteEach(l, succs[i + 1..])
  {
    assert succs[i..][1..] == succs[i + 1..];
  }

  /** The same for the merge pass. */
  ghost predicate Merging(f0: Func, ls: seq<Label>, f: Func, rest: seq<Label>, changed: bool, updates: seq<Update>) {
    Valid(f) && forall open {:trigger Unseal(open)} :: Unseal(open) ==> MergingNow(f0, ls, f, rest, changed, updates)
  }

  ghost predicate MergingNow(f0: Func, ls: seq<Label>, f: Func, rest: seq<Label>, changed: bool, updates: seq<Update>) {
    && Merge(f, rest) == Merge(f0, ls)
    && updates + MergePassLog(f, rest) == MergePassLog(f0, ls)
    && ((changed || MergeChanges(f, rest)) <==> MergeChanges(f0, ls))
  }

  /** The only edge to bb comes from pred. */
  ghost predicate OnlyFrom(f: Func, bb: Label, pred: Label) {
    forall q {:trigger Edges(f, q, bb)} :: Edges(f, q, bb) == if q == pred then 1 else 0
  }

  lemma TwoEdgesFrom(f: Func, bb: Label, l: Label, pred: Option<Label>)
    requires Edges(f, l, bb) > 1 || (Edges(f, l, bb) == 1 && pred.Some? && pred.value != l && Edges(f, pred.value, bb) == 1)
    ensures forall p :: !OnlyFrom(f, bb, p)
  {
    forall p: Label ensures !OnlyFrom(f, bb, p) {
      if OnlyFrom(f, bb, p) {
        OnlyFromUnique(f, bb, p, l);
        if pred.Some? && Edges(f, l, bb) == 1 {
          OnlyFromUnique(f, bb, p, pred.value);
        }
      }
    }
  }

  lemma OnlyFromUnique(f: Func, bb: Label, p: Label, q: Label)
    requires OnlyFrom(f, bb, p) && Edges(f, q, bb) >= 1
    ensures p == q && Edges(f, q, bb) == 1
  {
  }

  ghost predicate HasMergeable(f: Func, bb: Label) {
    exists p :: Mergeable(f, bb, p)
  }

  lemma {:induction false} MergeChangesAny(f: Func, ls: seq<Label>)
    ensures MergeChanges(f, ls) <==> exists q, p :: q in ls && Mergeable(f, q, p)
    decreases |ls|
  {
    if ls != [] && forall p :: !Mergeable(f, ls[0], p) {
      MergeChangesAny(f, ls[1..]);
      assert forall l :: l in ls <==> l == ls[0] || l in ls[1..];
    }
  }

  /** The merge pass reports a change exactly if one of the blocks it visits is the only one its
      only predecessor leads to. */
  lemma MergeFlag(f: Func, ls: seq<Label>)
    ensures MergeChanges(f, ls) <==> exists q, p :: q in ls && SoleRoute(f, p, q)
  {
    MergeChangesAny(f, ls);
    forall p, q ensures Mergeable(f, q, p) <==> SoleRoute(f, p, q) {
      MergeableIsSole(f, p, q);
    }
  }

  ghost predicate MergeFails(f: Func, ls: seq<Label>) {
    forall open {:trigger Unseal(open)} :: Unseal(open) ==> Merge(f, ls).None?
  }

  lemma MergingStart(f: Func, ls: seq<Label>)
    requires Valid(f)
    ensures Merging(f, ls, f, ls, false, [])
  {
    assert [] + MergePassLog(f, ls) == MergePassLog(f, ls);
  }

  lemma MergeCons(f: Func, l: Label, rest: seq<Label>)
    ensures Merge(f, [l] + rest) == match MergeAt(f, l) { case None => None case Some(g) => Merge(g, rest) }
    ensures MergePassLog(f, [l] + rest) == MergeLog(f, l) + match MergeAt(f, l) { case None => [] case Some(g) => MergePassLog(g, rest) }
    ensures MergeChanges(f, [l] + rest)
      <==> HasMergeable(f, l) || match MergeAt(f, l) { case None => false case Some(g) => MergeChanges(g, rest) }
  {
    assert ([l] + rest)[1..] == rest;
  }

  lemma LogApp(a: seq<Update>, b: seq<Update>, c: seq<Update>)
    ensures a + (b + c) == (a + b) + c
  {
  }

  lemma MergingOn(f0: Func, ls: seq<Label>, f: Func, l: Label, rest: seq<Label>, changed: bool, updates: seq<Update>,
                  g: Func, log: seq<Update>, merged: bool)
    requires Merging(f0, ls, f, [l] + rest, changed, updates) && Valid(g)
    requires Merge(f, [l] + rest) == Merge(g, rest)
    requires MergePassLog(f, [l] + rest) == log + MergePassLog(g, rest)
    requires MergeChanges(f, [l] + rest) <==> merged || MergeChanges(g, rest)
    ensures Merging(f0, ls, g, rest, changed || merged, updates + log)
  {
    assert Unseal(true);
    LogApp(updates, log, MergePassLog(g, rest));
  }

  lemma MergingStep(f0: Func, ls: seq<Label>, f: Func, l: Label, rest: seq<Label>, changed: bool, updates: seq<Update>)
    requires Merging(f0, ls, f, [l] + rest, changed, updates)
    ensures MergeAt(f, l).None? ==> MergeFails(f0, ls)
    ensures MergeAt(f, l).Some? ==>
      Merging(f0, ls, MergeAt(f, l).value, rest, changed || HasMergeable(f, l), updates + MergeLog(f, l))
  {
    MergeAtCorrect(f, l);
    MergeCons(f, l, rest);
    if MergeAt(f, l).Some? {
      MergingOn(f0, ls, f, l, rest, changed, updates, MergeAt(f, l).value, MergeLog(f, l), HasMergeable(f, l));
    } else {
      assert Unseal(true);
    }
  }

  lemma MergingEnd(f0: Func, ls: seq<Label>, f: Func, changed: bool, updates: seq<Update>)
    requires Merging(f0, ls, f, [], changed, updates)
    ensures Valid(f) && Merge(f0, ls) == Some(f) && updates == MergePassLog(f0, ls)
    ensures changed <==> MergeChanges(f0, ls)
  {
    assert Unseal(true) && updates + [] == updates;
  }

  lemma MergeableOnly(f: Func, bb: Label, p: Label)
    requires Mergeable(f, bb, p)
    ensures OnlyFrom(f, bb, p) && Edges(f, p, bb) == 1
  {
  }

  /** The order of the updates does not matter. */
  lemma JoinedMap(blocks: map<Label, Block>, bb: Label, pred: Label, b0: Block, b1: Block, b2: Block)
    requires pred != bb
    ensures blocks[pred := b0][bb := b1][pred := b2] - {bb} == blocks[pred := b2] - {bb}
  {
  }

  lemma NotMergeable(f: Func, bb: Label, pred: Option<Label>)
    requires match pred { case None => forall p :: !OnlyFrom(f, bb, p) case Some(p) => OnlyFrom(f, bb, p) }
    requires pred.None? || pred.value !in f.blocks || f.blocks[pred.value].term.succs != [bb] || pred.value == bb
    ensures !HasMergeable(f, bb) && MergeAt(f, bb) == Some(f) && MergeLog(f, bb) == []
  {
    forall p: Label ensures !Mergeable(f, bb, p) {
      if Mergeable(f, bb, p) {
        MergeableOnly(f, bb, p);
        if pred.Some? {
          OnlyFromUnique(f, bb, pred.value, p);
        }
      }
    }
  }

  lemma MergeAtIs(f: Func, bb: Label, pred: Label)
    requires Mergeable(f, bb, pred)
    ensures MergeAt(f, bb) == MergeInto(f, bb, pred) && MergeLog(f, bb) == MergeIntoLog(f, bb, pred) && HasMergeable(f, bb)
  {
    var p :| Mergeable(f, bb, p) && MergeAt(f, bb) == MergeInto(f, bb, p);
    MergeableUnique(f, bb, p, pred);
    var q :| Mergeable(f, bb, q) && MergeLog(f, bb) == MergeIntoLog(f, bb, q);
    MergeableUnique(f, bb, q, pred);
  }

  /** h is f after some PHI nodes of bb have been replaced; the others are still to come. */
  ghost predicate Forwarding(f: Func, h: Func, av: Avail, bb: Label, pred: Label) {
    && Wf(h, av) && SoleEdge(h, bb, pred) && h.entry == f.entry && h.params == f.params && h.blocks.Keys == f.blocks.Keys
    && forall open {:trigger Unseal(open)} :: Unseal(open) ==> ForwardAll(h, bb) == ForwardAll(f, bb)
  }

  lemma ForwardingStart(f: Func, bb: Label, pred: Label) returns (av: Avail)
    requires Valid(f) && Mergeable(f, bb, pred)
    ensures Forwarding(f, f, av, bb, pred)
  {
    av :| Wf(f, av);
    MergeableSole(f, bb, pred);
  }

  lemma ForwardingPhi(f: Func, h: Func, av: Avail, bb: Label, pred: Label)
    requires Forwarding(f, h, av, bb, pred) && h.blocks[bb].phis != []
    ensures |h.blocks[bb].phis[0].incoming| == 1
    ensures h.blocks[bb].phis[0].incoming[0].value == Use(h.blocks[bb].phis[0].dst) ==> ForwardAll(f, bb).None?
  {
    FirstCopies(h, av, bb, pred);
    assert Unseal(true);
  }

  lemma ForwardingStep(f: Func, h: Func, av: Avail, bb: Label, pred: Label) returns (av': Avail)
    requires Forwarding(f, h, av, bb, pred) && h.blocks[bb].phis != []
    requires |h.blocks[bb].phis[0].incoming| == 1
    requires h.blocks[bb].phis[0].incoming[0].value != Use(h.blocks[bb].phis[0].dst)
    ensures Forwarding(f, ForwardPhi(h, bb), av', bb, pred)
    ensures |ForwardPhi(h, bb).blocks[bb].phis| < |h.blocks[bb].phis|
  {
    assert Unseal(true);
    var phi := h.blocks[bb].phis[0];
    FirstCopies(h, av, bb, pred);
    ForwardKeeps(h, av, bb, pred);
    av' := ForwardCorrect(h, av, bb, pred, phi.dst, phi.incoming[0].value);
  }

  lemma ForwardingEnd(f: Func, h: Func, av: Avail, bb: Label, pred: Label)
    requires Forwarding(f, h, av, bb, pred) && h.blocks[bb].phis == []
    ensures bb in f.blocks && pred in f.blocks && MergeInto(f, bb, pred) == Some(Splice(h, bb, pred))
  {
    assert Unseal(true);
  }

  // ----- The three passes, in any order ----------------------------------------------------------

  datatype Pass = CondBranches | SinglePredecessors | DeadBlocks

  ghost function AfterPass(f: Func, ls: seq<Label>, pass: Pass): Option<Func> {
    match pass
    case CondBranches => Some(Eliminate(f, ls))
    case SinglePredecessors => Merge(f, ls)
    case DeadBlocks => Some(RemoveDead(f, ls))
  }

  ghost function PassLog(f: Func, ls: seq<Label>, pass: Pass): seq<Update> {
    match pass
    case CondBranches => EliminatePassLog(f, ls)
    case SinglePredecessors => MergePassLog(f, ls)
    case DeadBlocks => RemoveDeadPassLog(f, ls)
  }

  ghost predicate PassChanges(f: Func, ls: seq<Label>, pass: Pass) {
    match pass
    case CondBranches => EliminateChanges(f, ls)
    case SinglePredecessors => MergeChanges(f, ls)
    case DeadBlocks => RemoveDeadChanges(f, ls)
  }

  ghost function AfterPasses(f: Func, ls: seq<Label>, passes: seq<Pass>): Option<Func>
    decreases |passes|
  {
    if passes == [] then Some(f)
    else match AfterPass(f, ls, passes[0])
      case None => None
      case Some(g) => AfterPasses(g, Remaining(ls, g.blocks.Keys), passes[1..])
  }

  ghost function PassesLog(f: Func, ls: seq<Label>, passes: seq<Pass>): seq<Update>
    decreases |passes|
  {
    if passes == [] then []
    else PassLog(f, ls, passes[0]) + match AfterPass(f, ls, passes[0])
      case None => []
      case Some(g) => PassesLog(g, Remaining(ls, g.blocks.Keys), passes[1..])
  }

  /** Every pass has changed something. */
  ghost predicate AllFlags(f: Func, ls: seq<Label>, passes: seq<Pass>)
    decreases |passes|
  {
    passes == [] || (PassChanges(f, ls, passes[0]) && match AfterPass(f, ls, passes[0])
      case None => false
      case Some(g) => AllFlags(g, Remaining(ls, g.blocks.Keys), passes[1..]))
  }

  lemma PassesCons(f: Func, ls: seq<Label>, pass: Pass, rest: seq<Pass>, g: Func)
    requires AfterPass(f, ls, pass) == Some(g)
    ensures AfterPasses(f, ls, [pass] + rest) == AfterPasses(g, Remaining(ls, g.blocks.Keys), rest)
    ensures PassesLog(f, ls, [pass] + rest) == PassLog(f, ls, pass) + PassesLog(g, Remaining(ls, g.blocks.Keys), rest)
    ensures AllFlags(f, ls, [pass] + rest) <==> PassChanges(f, ls, pass) && AllFlags(g, Remaining(ls, g.blocks.Keys), rest)
  {
    assert ([pass] + rest)[1..] == rest;
  }

  /** After some of the passes, with rest still to come. */
  ghost predicate Passing(f0: Func, ls0: seq<Label>, passes: seq<Pass>, f: Func, ls: seq<Label>, rest: seq<Pass>,
                          flags: bool, updates: seq<Update>) {
    forall open {:trigger Unseal(open)} :: Unseal(open) ==>
      && AfterPasses(f0, ls0, passes) == AfterPasses(f, ls, rest)
      && PassesLog(f0, ls0, passes) == updates + PassesLog(f, ls, rest)
      && (AllFlags(f0, ls0, passes) <==> flags && AllFlags(f, ls, rest))
  }

  lemma PassingStart(f: Func, ls: seq<Label>, passes: seq<Pass>)
    ensures Passing(f, ls, passes, f, ls, passes, true, [])
  {
    assert [] + PassesLog(f, ls, passes) == PassesLog(f, ls, passes);
  }

  lemma PassingStep(f0: Func, ls0: seq<Label>, passes: seq<Pass>, f: Func, ls: seq<Label>, pass: Pass, rest: seq<Pass>,
                    flags: bool, updates: seq<Update>, g: Func)
    requires Passing(f0, ls0, passes, f, ls, [pass] + rest, flags, updates) && AfterPass(f, ls, pass) == Some(g)
    ensures Passing(f0, ls0, passes, g, Remaining(ls, g.blocks.Keys), rest,
                    flags && PassChanges(f, ls, pass), updates + PassLog(f, ls, pass))
  {
    assert Unseal(true);
    PassesCons(f, ls, pass, rest, g);
    LogApp(updates, PassLog(f, ls, pass), PassesLog(g, Remaining(ls, g.blocks.Keys), rest));
  }

  ghost predicate PassesFail(f: Func, ls: seq<Label>, passes: seq<Pass>) {
    forall open {:trigger Unseal(open)} :: Unseal(open) ==> AfterPasses(f, ls, passes).None?
  }

  lemma PassingFails(f0: Func, ls0: seq<Label>, passes: seq<Pass>, f: Func, ls: seq<Label>, pass: Pass, rest: seq<Pass>,
                     flags: bool, updates: seq<Update>)
    requires Passing(f0, ls0, passes, f, ls, [pass] + rest, flags, updates) && AfterPass(f, ls, pass).None?
    ensures PassesFail(f0, ls0, passes)
  {
    assert Unseal(true);
    assert ([pass] + rest)[0] == pass;
  }

  lemma PassingEnd(f0: Func, ls0: seq<Label>, passes: seq<Pass>, f: Func, ls: seq<Label>, flags: bool, updates: seq<Update>)
    requires Passing(f0, ls0, passes, f, ls, [], flags, updates)
    ensures AfterPasses(f0, ls0, passes) == Some(f) && PassesLog(f0, ls0, passes) == updates
    ensures AllFlags(f0, ls0, passes) <==> flags
  {
    assert Unseal(true) && updates + [] == updates;
  }

  class Function {
    const entry: Label
    ghost const params: set<Reg>
    var blocks: map<Label, Block>
    /** The blocks in layout order. */
    var order: seq<Label>

    ghost function Value(): Func
      reads this
    {
      Func(entry, params, blocks)
    }

    ghost predicate LaidOut()
      reads this
    {
      (forall l :: l in order <==> l in blocks) && Distinct(order)
    }

    /** In the middle of a pass over ls: the blocks that are left are those of ls that have
        not been removed, and all that are still to be visited are among them. */
    ghost predicate Underway(ls: seq<Label>, i: nat)
      reads this
    {
      forall open {:trigger Unseal(open)} :: Unseal(open) ==>
        LaidOut() && order == Remaining(ls, blocks.Keys) && Distinct(ls) && forall k :: i <= k < |ls| ==> ls[k] in blocks
    }

    lemma PassStart()
      requires LaidOut()
      ensures Underway(order, 0)
    {
      RemainingAll(order, blocks.Keys);
    }

    lemma PassNow(ls: seq<Label>, i: nat)
      requires i < |ls| && Underway(ls, i)
      ensures LaidOut() && ls[i] in blocks && order == Remaining(ls, blocks.Keys) && Pending(ls, i, blocks.Keys)
    {
      assert Unseal(true);
    }

    lemma PassNext(ls: seq<Label>, i: nat, keep: set<Label>)
      requires i < |ls| && LaidOut() && order == Remaining(Remaining(ls, keep), blocks.Keys) && Pending(ls, i, keep)
      requires keep - {ls[i]} <= blocks.Keys <= keep
      ensures Underway(ls, i + 1)
    {
      assert Unseal(true);
      RemainingTwice(ls, keep, blocks.Keys);
    }

    lemma PassEnd(ls: seq<Label>)
      requires Underway(ls, |ls|)
      ensures LaidOut() && order == Remaining(ls, blocks.Keys)
    {
      assert Unseal(true);
    }

    constructor (entry: Label, ghost params: set<Reg>, blocks: map<Label, Block>, order: seq<Label>)
      requires (forall l :: l in order <==> l in blocks) && Distinct(order)
      ensures Value() == Func(entry, params, blocks) && this.order == order && LaidOut()
    {
      this.entry, this.params, this.blocks, this.order := entry, params, blocks, order;
    }

    /** Takes a block that is gone out of the layout. */
    method Unlink(bb: Label)
      requires blocks.Keys == (set l | l in order) - {bb} && Distinct(order)
      modifies this`order
      ensures LaidOut() && order == Remaining(old(order), blocks.Keys)
    {
      ghost var all := set l | l in order;
      RemainingAll(order, all);
      RemainingLess(order, all, bb);
      RemainingDistinct(order, all - {bb});
      order := RemoveLabel(order, bb);
    }

    /** RemovedSucc->removePredecessor(BB), restricted to what every PHI node loses. */
    method DoRemovePredecessor(x: Label, l: Label)
      requires x in blocks
      modifies this`blocks
      ensures Value() == RemovePredecessor(old(Value()), x, l)
    {
      var kept, emptied := DropIncoming(blocks[x].phis, l);
      blocks := blocks[x := blocks[x].(phis := DropFrom(blocks[x].phis, l))];
      blocks := SubBlocks(blocks[x := blocks[x].(phis := kept)], emptied, Undef);
    }

    /** The PHI nodes without their entry for l: those that keep an entry, and the registers of
        those that do not. */
    static method DropIncoming(phis: seq<Phi>, l: Label) returns (kept: seq<Phi>, emptied: set<Reg>)
      ensures kept == KeepPhis(DropFrom(phis, l)) && emptied == EmptyDefs(DropFrom(phis, l))
    {
      kept, emptied := [], {};
      var i := 0;
      ghost var dropped := DropFrom(phis, l);
      while i < |phis|
        invariant 0 <= i <= |phis| && kept == KeepPhis(dropped[..i]) && emptied == EmptyDefs(dropped[..i])
      {
        var pn := Phi(phis[i].dst, RemoveFrom(phis[i].incoming, l));
        assert dropped[i] == pn && dropped[..i + 1][..i] == dropped[..i];
        if pn.incoming == [] {
          emptied := emptied + {pn.dst};
        } else {
          kept := kept + [pn];
        }
        i := i + 1;
      }
      assert dropped[..i] == dropped;
    }

    /** One block of eliminateCondBranches. */
    method EliminateIn(bb: Label) returns (changed: bool, updates: seq<Update>)
      requires bb in blocks && Valid(Value())
      modifies this`blocks
      ensures Value() == EliminateAt(old(Value()), bb) && blocks.Keys == old(blocks).Keys
      ensures updates == EliminateLog(old(Value()), bb) && (changed <==> ConstantBranch(old(Value()), bb))
    {
      var t := blocks[bb].term;
      changed, updates := false, [];
      if t.kind.CondJump? && t.kind.cond.Const? {
        ConstantBranchValid(Value(), bb);
        var isOne := t.kind.cond.n % 2 == 1;
        var removed, taken := t.succs[if isOne then 1 else 0], t.succs[if isOne then 0 else 1];
        Redirect(bb, removed, taken);
        if taken != removed {
          updates := [Delete(bb, removed)];
        }
        changed := true;
      }
    }

    /** The conditional branch becomes a jump, and the block that is left out is told. */
    method Redirect(bb: Label, removed: Label, taken: Label)
      requires ConstantBranch(Value(), bb)
      requires removed == blocks[bb].term.succs[RemovedIndex(Value(), bb)] && taken == blocks[bb].term.succs[1 - RemovedIndex(Value(), bb)]
      modifies this`blocks
      ensures Value() == EliminateAt(old(Value()), bb) && blocks.Keys == old(blocks).Keys
    {
      TermAfterRemove(Value(), bb);
      DoRemovePredecessor(removed, bb);
      blocks := blocks[bb := blocks[bb].(term := Term(Jump, [taken]))];
    }

    /** One step of the loop below. */
    method EliminateNext(ghost f0: Func, ghost ls: seq<Label>, bb: Label, ghost rest: seq<Label>, changed: bool, updates: seq<Update>)
      returns (changed': bool, updates': seq<Update>)
      requires bb in blocks && Eliminating(f0, ls, Value(), [bb] + rest, changed, updates)
      modifies this`blocks
      ensures Eliminating(f0, ls, Value(), rest, changed', updates') && blocks.Keys == old(blocks).Keys
    {
      EliminatingStep(f0, ls, Value(), bb, rest, changed, updates);
      var changed1, updates1 := EliminateIn(bb);
      changed', updates' := changed || changed1, updates + updates1;
    }

    /** Eliminates branches on constants, one block after the other, and logs the edges
        that disappear. */
    method EliminateCondBranches() returns (changed: bool, updates: seq<Update>)
      requires LaidOut() && Valid(Value())
      modifies this`blocks
      ensures Value() == Eliminate(old(Value()), order) && LaidOut() && Valid(Value())
      ensures updates == EliminatePassLog(old(Value()), order)
      ensures changed <==> EliminateChanges(old(Value()), order)
    {
      changed, updates := false, [];
      ghost var f0 := Value();
      EliminatingStart(f0, order);
      var i := 0;
      while i < |order|
        invariant 0 <= i <= |order| && blocks.Keys == old(blocks).Keys
        invariant Eliminating(f0, order, Value(), order[i..], changed, updates)
      {
        SuffixFirst(order, i);
        changed, updates := EliminateNext(f0, order, order[i], order[i + 1..], changed, updates);
        i := i + 1;
      }
      assert order[i..] == [];
      EliminatingEnd(f0, order, Value(), changed, updates);
    }

    /** pred_empty(&BB). */
    method PredEmpty(bb: Label) returns (empty: bool)
      requires LaidOut()
      ensures empty <==> forall p :: Edges(Value(), p, bb) == 0
    {
      var i := 0;
      while i < |order|
        invariant 0 <= i <= |order|
        invariant forall k :: 0 <= k < i ==> Edges(Value(), order[k], bb) == 0
      {
        var succs := blocks[order[i]].term.succs;
        CountIn(succs, bb);
        if bb in succs {
          assert Edges(Value(), order[i], bb) > 0;
          return false;
        }
        i := i + 1;
      }
      forall p ensures Edges(Value(), p, bb) == 0 {
        if p in blocks {
          assert p in order;
        }
      }
      return true;
    }

    /** Tells every successor that the block goes, and logs the edges. */
    method LeaveSuccessors(bb: Label) returns (updates: seq<Update>)
      requires bb in blocks && Valid(Value())
      modifies this`blocks
      ensures Value() == DropSuccessors(old(Value()), bb, old(blocks[bb].term.succs))
      ensures updates == DeleteEach(bb, old(blocks[bb].term.succs)) && blocks.Keys == old(blocks).Keys
    {
      updates := [];
      var succs, i := blocks[bb].term.succs, 0;
      SuccsValid(Value(), bb);
      ghost var f0 := Value();
      LeavingStart(f0, bb, succs);
      while i < |succs|
        invariant 0 <= i <= |succs| && blocks.Keys == old(blocks).Keys
        invariant Leaving(f0, bb, succs, Value(), i, updates)
      {
        LeavingStep(f0, bb, succs, Value(), i, updates);
        DoRemovePredecessor(succs[i], bb);
        updates := updates + [Delete(bb, succs[i])];
        i := i + 1;
      }
      LeavingEnd(f0, bb, succs, Value(), updates);
    }

    /** Erases the instructions of a block from the back; what used them uses undef. */
    method EraseInstructions(bb: Label)
      requires bb in blocks
      modifies this`blocks
      ensures bb in blocks && blocks - {bb} == SubBlocks(old(blocks) - {bb}, Defs(old(blocks[bb])), Undef)
    {
      ghost var rest, erased := blocks - {bb}, {};
      SubNone(rest, Undef);
      blocks := blocks[bb := blocks[bb].(term := Term(Erased, []))];
      assert blocks - {bb} == rest;
      while blocks[bb].insts != []
        invariant bb in blocks && blocks - {bb} == SubBlocks(rest, erased, Undef)
        invariant Defs(blocks[bb]) + erased == Defs(old(blocks[bb]))
        decreases |blocks[bb].insts|
      {
        var b := blocks[bb];
        var last := |b.insts| - 1;
        var b' := b.(insts := b.insts[..last]);
        InstDefsLast(b.insts);
        EraseStep(blocks, bb, b', b.insts[last].dst, rest, erased);
        SubBlockDefs(b', {b.insts[last].dst}, Undef);
        blocks := SubBlocks(blocks[bb := b'], {b.insts[last].dst}, Undef);
        erased := erased + {b.insts[last].dst};
      }
      while blocks[bb].phis != []
        invariant bb in blocks && blocks - {bb} == SubBlocks(rest, erased, Undef)
        invariant blocks[bb].insts == [] && Defs(blocks[bb]) + erased == Defs(old(blocks[bb]))
        decreases |blocks[bb].phis|
      {
        var b := blocks[bb];
        var last := |b.phis| - 1;
        var b' := b.(phis := b.phis[..last]);
        EraseStep(blocks, bb, b', b.phis[last].dst, rest, erased);
        SubBlockDefs(b', {b.phis[last].dst}, Undef);
        blocks := SubBlocks(blocks[bb := b'], {b.phis[last].dst}, Undef);
        erased := erased + {b.phis[last].dst};
      }
      assert Defs(blocks[bb]) == {};
      assert erased == Defs(old(blocks[bb]));
    }

    /** One block of removeDeadBlocks. */
    method RemoveDeadIn(bb: Label) returns (changed: bool, updates: seq<Update>)
      requires bb in blocks && LaidOut() && Valid(Value())
      modifies this
      ensures Value() == RemoveDeadAt(old(Value()), bb) && LaidOut()
      ensures updates == RemoveDeadLog(old(Value()), bb) && (changed <==> Dead(old(Value()), bb))
      ensures old(blocks).Keys - {bb} <= blocks.Keys <= old(blocks).Keys && order == Remaining(old(order), blocks.Keys)
    {
      changed, updates := false, [];
      RemainingAll(order, blocks.Keys);
      var empty := PredEmpty(bb);
      if bb != entry && empty {
        updates := DeleteDeadBlock(bb);
        changed := true;
      }
    }

    /** Takes a dead block away, with everything in it. */
    method DeleteDeadBlock(bb: Label) returns (updates: seq<Update>)
      requires bb in blocks && LaidOut() && Valid(Value())
      modifies this
      ensures Value() == DeleteDead(old(Value()), bb) && LaidOut() && blocks.Keys == old(blocks).Keys - {bb}
      ensures updates == DeleteEach(bb, old(blocks[bb].term.succs)) && order == Remaining(old(order), blocks.Keys)
    {
      updates := LeaveSuccessors(bb);
      ghost var g := Value();
      EraseInstructions(bb);
      blocks := blocks - {bb};
      assert Value() == RemoveBlock(g, bb);
      Unlink(bb);
    }

    /** One step of the loop below. */
    method RemoveDeadNext(ghost f0: Func, ls: seq<Label>, i: nat, changed: bool, updates: seq<Update>)
      returns (changed': bool, updates': seq<Update>)
      requires i < |ls| && Underway(ls, i) && Removing(f0, ls, Value(), ls[i..], changed, updates)
      modifies this
      ensures Removing(f0, ls, Value(), ls[i + 1..], changed', updates') && Underway(ls, i + 1)
    {
      PassNow(ls, i);
      assert ls[i..] == [ls[i]] + ls[i + 1..];
      RemovingStep(f0, ls, Value(), ls[i], ls[i + 1..], changed, updates);
      var changed1, updates1 := RemoveDeadIn(ls[i]);
      PassNext(ls, i, old(blocks).Keys);
      changed', updates' := changed || changed1, updates + updates1;
    }

    /** Removes every block that has no predecessor when its turn comes. */
    method RemoveDeadBlocks() returns (changed: bool, updates: seq<Update>)
      requires LaidOut() && Valid(Value())
      modifies this
      ensures Value() == RemoveDead(old(Value()), old(order)) && LaidOut() && Valid(Value())
      ensures order == Remaining(old(order), blocks.Keys)
      ensures updates == RemoveDeadPassLog(old(Value()), old(order))
      ensures changed <==> RemoveDeadChanges(old(Value()), old(order))
    {
      changed, updates := false, [];
      ghost var f0 := Value();
      var ls, i := order, 0;
      RemovingStart(f0, ls);
      PassStart();
      while i < |ls|
        invariant 0 <= i <= |ls| && Underway(ls, i)
        invariant Removing(f0, ls, Value(), ls[i..], changed, updates)
      {
        changed, updates := RemoveDeadNext(f0, ls, i, changed, updates);
        i := i + 1;
      }
      assert ls[i..] == [];
      PassEnd(ls);
      RemovingEnd(f0, ls, Value(), changed, updates);
    }

    /** BB.getSinglePredecessor(): the block the only incoming edge comes from. */
    method GetSinglePredecessor(bb: Label) returns (pred: Option<Label>)
      requires LaidOut()
      ensures pred.Some? ==> pred.value in blocks && OnlyFrom(Value(), bb, pred.value)
      ensures pred.None? ==> forall p :: !OnlyFrom(Value(), bb, p)
    {
      pred := None;
      var i := 0;
      while i < |order|
        invariant 0 <= i <= |order|
        invariant pred.None? ==> forall k :: 0 <= k < i ==> Edges(Value(), order[k], bb) == 0
        invariant pred.Some? ==> pred.value in order[..i] && Edges(Value(), pred.value, bb) == 1
        invariant pred.Some? ==> forall k :: 0 <= k < i && order[k] != pred.value ==> Edges(Value(), order[k], bb) == 0
      {
        var n := Count(blocks[order[i]].term.succs, bb);
        assert n == Edges(Value(), order[i], bb);
        if n > 1 || (n == 1 && pred.Some?) {
          TwoEdgesFrom(Value(), bb, order[i], pred);
          return None;
        }
        if n == 1 {
          pred := Some(order[i]);
        }
        i := i + 1;
      }
      forall q: Label ensures Edges(Value(), q, bb) == if Some(q) == pred then 1 else 0 {
        if q in blocks {
          assert q in order;
        }
      }
      forall p | OnlyFrom(Value(), bb, p) ensures pred.Some? {
        assert Edges(Value(), p, bb) == 1;
      }
    }

    /** Moves the instructions of one block, in order, to the end of another. */
    method MoveInstructions(bb: Label, pred: Label)
      requires bb in blocks && pred in blocks && pred != bb
      modifies this`blocks
      ensures blocks == old(blocks)[pred := old(blocks[pred]).(insts := old(blocks[pred]).insts + old(blocks[bb]).insts)]
                                   [bb := old(blocks[bb]).(insts := [])]
    {
      var was := blocks;
      while blocks[bb].insts != []
        invariant bb in blocks && pred in blocks
        invariant blocks[pred].insts + blocks[bb].insts == was[pred].insts + was[bb].insts
        invariant blocks == was[pred := was[pred].(insts := blocks[pred].insts)][bb := was[bb].(insts := blocks[bb].insts)]
        decreases |blocks[bb].insts|
      {
        var i := blocks[bb].insts[0];
        blocks := blocks[bb := blocks[bb].(insts := blocks[bb].insts[1..])];
        blocks := blocks[pred := blocks[pred].(insts := blocks[pred].insts + [i])];
      }
      assert blocks[pred].insts == was[pred].insts + was[bb].insts;
    }

    /** Replaces every PHI node of bb by its value, after bb has been renamed; stops where
        replaceAllUsesWith asserts. */
    method ReplacePhis(bb: Label, pred: Label) returns (crashed: bool, ghost h: Func)
      requires Valid(Value()) && Mergeable(Value(), bb, pred)
      modifies this`blocks
      ensures crashed <==> MergeInto(old(Value()), bb, pred).None?
      ensures !crashed ==> bb in h.blocks && pred in h.blocks && h.entry == entry && h.params == params
      ensures !crashed ==> h.blocks.Keys == old(blocks).Keys
      ensures !crashed ==> blocks == RenameBlocks(h.blocks, bb, pred)
      ensures !crashed ==> MergeInto(old(Value()), bb, pred) == Some(Splice(h, bb, pred))
    {
      ghost var f := Value();
      ghost var av := ForwardingStart(f, bb, pred);
      h := f;
      blocks := RenameBlocks(blocks, bb, pred);
      while blocks[bb].phis != []
        invariant Forwarding(f, h, av, bb, pred) && blocks == RenameBlocks(h.blocks, bb, pred)
        decreases |h.blocks[bb].phis|
      {
        ForwardingPhi(f, h, av, bb, pred);
        RenameForward(h, bb, pred);
        var pn := blocks[bb].phis[0];
        var value := pn.incoming[0].value;
        if value == Use(pn.dst) {
          return true, h;
        }
        av := ForwardingStep(f, h, av, bb, pred);
        blocks := SubBlocks(blocks[bb := blocks[bb].(phis := blocks[bb].phis[1..])], {pn.dst}, value);
        h := ForwardPhi(h, bb);
      }
      ForwardingEnd(f, h, av, bb, pred);
      return false, h;
    }

    /** Joins bb, which has no PHI nodes any more, to pred. */
    method JoinBlocks(bb: Label, pred: Label)
      requires LaidOut() && bb in blocks && pred in blocks && pred != bb
      modifies this
      ensures LaidOut() && blocks.Keys == old(blocks).Keys - {bb} && order == Remaining(old(order), blocks.Keys)
      ensures blocks == JoinedBlocks(old(blocks), bb, pred)
    {
      MoveInstructions(bb, pred);
      JoinedMap(old(blocks), bb, pred, blocks[pred], blocks[bb], blocks[pred].(term := blocks[bb].term));
      blocks := blocks[pred := blocks[pred].(term := blocks[bb].term)] - {bb};
      Unlink(bb);
    }

    /** Merges bb into pred. */
    method MergeBlock(bb: Label, pred: Label) returns (crashed: bool)
      requires LaidOut() && Valid(Value()) && Mergeable(Value(), bb, pred)
      modifies this
      ensures crashed <==> MergeInto(old(Value()), bb, pred).None?
      ensures !crashed ==> LaidOut() && Some(Value()) == MergeInto(old(Value()), bb, pred)
      ensures !crashed ==> blocks.Keys == old(blocks).Keys - {bb} && order == Remaining(old(order), blocks.Keys)
    {
      ghost var h;
      crashed, h := ReplacePhis(bb, pred);
      if !crashed {
        RenameJoin(h, bb, pred, blocks);
        JoinBlocks(bb, pred);
      }
    }

    /** The updates for the edges of bb, which become edges of pred. */
    static method MoveUpdates(bb: Label, pred: Label, succs: seq<Label>) returns (updates: seq<Update>)
      ensures updates == MoveEach(bb, pred, succs)
    {
      updates := [];
      var i := 0;
      while i < |succs|
        invariant 0 <= i <= |succs| && updates + MoveEach(bb, pred, succs[i..]) == MoveEach(bb, pred, succs)
      {
        assert succs[i..][1..] == succs[i + 1..];
        updates := updates + [Delete(bb, succs[i]), Insert(pred, succs[i])];
        i := i + 1;
      }
      assert updates + [] == updates;
    }

    /** One block of mergeIntoSinglePredecessor. */
    method MergeIn(bb: Label) returns (crashed: bool, changed: bool, updates: seq<Update>)
      requires bb in blocks && LaidOut() && Valid(Value())
      modifies this
      ensures crashed <==> MergeAt(old(Value()), bb).None?
      ensures !crashed ==> LaidOut() && Some(Value()) == MergeAt(old(Value()), bb)
      ensures !crashed ==> old(blocks).Keys - {bb} <= blocks.Keys <= old(blocks).Keys && order == Remaining(old(order), blocks.Keys)
      ensures !crashed ==> updates == MergeLog(old(Value()), bb) && (changed <==> HasMergeable(old(Value()), bb))
    {
      crashed, changed, updates := false, false, [];
      var pred := GetSinglePredecessor(bb);
      if pred.None? || blocks[pred.value].term.succs != [bb] || pred.value == bb {
        NotMergeable(Value(), bb, pred);
        RemainingAll(order, blocks.Keys);
        return;
      }
      MergeAtIs(Value(), bb, pred.value);
      updates := MoveUpdates(bb, pred.value, blocks[bb].term.succs);
      updates := updates + [Delete(pred.value, bb)];
      crashed := MergeBlock(bb, pred.value);
      changed := true;
    }

    /** One step of the loop below. */
    method MergeNext(ghost f0: Func, ls: seq<Label>, i: nat, changed: bool, updates: seq<Update>)
      returns (crashed: bool, changed': bool, updates': seq<Update>)
      requires i < |ls| && Underway(ls, i) && Merging(f0, ls, Value(), ls[i..], changed, updates)
      modifies this
      ensures crashed ==> MergeFails(f0, ls)
      ensures !crashed ==> Merging(f0, ls, Value(), ls[i + 1..], changed', updates') && Underway(ls, i + 1)
    {
      PassNow(ls, i);
      assert ls[i..] == [ls[i]] + ls[i + 1..];
      MergingStep(f0, ls, Value(), ls[i], ls[i + 1..], changed, updates);
      var changed1, updates1;
      crashed, changed1, updates1 := MergeIn(ls[i]);
      if !crashed {
        PassNext(ls, i, old(blocks).Keys);
      }
      changed', updates' := changed || changed1, updates + updates1;
    }

    method MergeEach(ghost f0: Func, ls: seq<Label>) returns (crashed: bool, changed: bool, updates: seq<Update>)
      requires Underway(ls, 0) && Merging(f0, ls, Value(), ls, false, [])
      modifies this
      ensures crashed ==> MergeFails(f0, ls)
      ensures !crashed ==> Underway(ls, |ls|) && Merging(f0, ls, Value(), [], changed, updates)
    {
      crashed, changed, updates := false, false, [];
      var i := 0;
      assert ls[0..] == ls;
      while i < |ls|
        invariant 0 <= i <= |ls| && Underway(ls, i)
        invariant Merging(f0, ls, Value(), ls[i..], changed, updates)
      {
        crashed, changed, updates := MergeNext(f0, ls, i, changed, updates);
        if crashed {
          return;
        }
        i := i + 1;
      }
      assert ls[i..] == [];
      crashed := false;
    }

    /** Merges every block into its single predecessor where that has no other successor. */
    method MergeIntoSinglePredecessor() returns (crashed: bool, changed: bool, updates: seq<Update>)
      requires LaidOut() && Valid(Value())
      modifies this
      ensures crashed <==> Merge(old(Value()), old(order)).None?
      ensures !crashed ==> LaidOut() && Valid(Value()) && Some(Value()) == Merge(old(Value()), old(order))
      ensures !crashed ==> order == Remaining(old(order), blocks.Keys)
      ensures !crashed ==> updates == MergePassLog(old(Value()), old(order))
      ensures !crashed ==> (changed <==> MergeChanges(old(Value()), old(order)))
      ensures !crashed ==> forall p, q :: !SoleRoute(Value(), p, q)
      ensures !crashed ==> (changed <==> exists q, p :: q in old(blocks) && SoleRoute(old(Value()), p, q))
    {
      MergingStart(Value(), order);
      PassStart();
      crashed, changed, updates := MergeEach(Value(), order);
      if crashed {
        assert Unseal(true);
      } else {
        PassEnd(old(order));
        MergingEnd(old(Value()), old(order), Value(), changed, updates);
        SweepIsFixpoint(old(Value()), old(order));
        MergeFlag(old(Value()), old(order));
      }
    }

    method RunPass(pass: Pass) returns (crashed: bool, changed: bool, updates: seq<Update>)
      requires LaidOut() && Valid(Value())
      modifies this
      ensures crashed <==> AfterPass(old(Value()), old(order), pass).None?
      ensures !crashed ==> LaidOut() && Valid(Value()) && Some(Value()) == AfterPass(old(Value()), old(order), pass)
      ensures !crashed ==> order == Remaining(old(order), blocks.Keys)
      ensures !crashed ==> updates == PassLog(old(Value()), old(order), pass)
      ensures !crashed ==> (changed <==> PassChanges(old(Value()), old(order), pass))
    {
      crashed := false;
      match pass
      case CondBranches =>
        changed, updates := EliminateCondBranches();
        RemainingAll(order, blocks.Keys);
      case SinglePredecessors =>
        crashed, changed, updates := MergeIntoSinglePredecessor();
      case DeadBlocks =>
        changed, updates := RemoveDeadBlocks();
    }

    /** One pass of several: its flag is and-ed to the flags so far. */
    method PassNumber(ghost f0: Func, ghost ls0: seq<Label>, ghost passes: seq<Pass>, pass: Pass, ghost rest: seq<Pass>,
                      flags: bool, updates: seq<Update>)
      returns (crashed: bool, flags': bool, updates': seq<Update>)
      requires LaidOut() && Valid(Value()) && Passing(f0, ls0, passes, Value(), order, [pass] + rest, flags, updates)
      modifies this
      ensures crashed ==> PassesFail(f0, ls0, passes)
      ensures !crashed ==> LaidOut() && Valid(Value()) && Passing(f0, ls0, passes, Value(), order, rest, flags', updates')
    {
      var changed, log;
      crashed, changed, log := RunPass(pass);
      if crashed {
        PassingFails(f0, ls0, passes, old(Value()), old(order), pass, rest, flags, updates);
      } else {
        PassingStep(f0, ls0, passes, old(Value()), old(order), pass, rest, flags, updates, Value());
      }
      flags', updates' := flags && changed, updates + log;
    }

    /** The passes in the order in which the operands of & happen to be evaluated; the result
        is the conjunction of what the three return. */
    method DoSimplify(first: Pass, second: Pass, third: Pass) returns (crashed: bool, result: bool, updates: seq<Update>)
      requires LaidOut() && Valid(Value())
      modifies this
      ensures crashed <==> AfterPasses(old(Value()), old(order), [first, second, third]).None?
      ensures !crashed ==> LaidOut() && Valid(Value()) && Some(Value()) == AfterPasses(old(Value()), old(order), [first, second, third])
      ensures !crashed ==> updates == PassesLog(old(Value()), old(order), [first, second, third])
      ensures !crashed ==> (result <==> AllFlags(old(Value()), old(order), [first, second, third]))
    {
      ghost var f0, ls0 := Value(), order;
      ghost var passes := [first, second, third];
      var flag1, flag2, flag3, updates1, updates2, updates3;
      result, updates := false, [];
      PassingStart(f0, ls0, passes);
      assert passes == [first] + [second, third] && [second, third] == [second] + [third] && [third] == [third] + [];
      crashed, flag1, updates1 := PassNumber(f0, ls0, passes, first, [second, third], true, []);
      if crashed {
        assert Unseal(true);
        return;
      }
      crashed, flag2, updates2 := PassNumber(f0, ls0, passes, second, [third], flag1, updates1);
      if crashed {
        assert Unseal(true);
        return;
      }
      crashed, flag3, updates3 := PassNumber(f0, ls0, passes, third, [], flag2, updates2);
      if crashed {
        assert Unseal(true);
        return;
      }
      PassingEnd(f0, ls0, passes, Value(), order, flag3, updates3);
      result, updates := flag3, updates3;
    }
  }

  /** In valid code a conditional branch has two successors, both in the function. */
  lemma ConstantBranchValid(f: Func, l: Label)
    requires Valid(f) && l in f.blocks && f.blocks[l].term.kind.CondJump? && f.blocks[l].term.kind.cond.Const?
    ensures ConstantBranch(f, l)
  {
    var av :| Wf(f, av);
    assert BlockOk(f, av, l);
    DropEdgeTarget(f, av, l, 0);
    DropEdgeTarget(f, av, l, 1);
  }
}
