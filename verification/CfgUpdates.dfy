/** The log of edge updates kept for the dominator tree: replaying it on the edges of the
    function before a simplification gives exactly the edges afterwards. */
module CfgUpdates {
  import opened SsaFunction
  import opened SsaRewrite
  import opened SsaRuns
  import opened SsaDead
  import opened SsaEdges
  import opened SsaSplice
  import opened CfgPasses

  datatype Update = Insert(from: Label, to: Label) | Delete(from: Label, to: Label)

  type EdgeSet = set<(Label, Label)>

  function Apply(es: EdgeSet, u: Update): EdgeSet {
    match u
    case Insert(p, q) => es + {(p, q)}
    case Delete(p, q) => es - {(p, q)}
  }

  function Replay(es: EdgeSet, log: seq<Update>): EdgeSet
    decreases |log|
  {
    if log == [] then es else Replay(Apply(es, log[0]), log[1..])
  }

  lemma {:induction false} ReplayApp(es: EdgeSet, a: seq<Update>, b: seq<Update>)
    ensures Replay(es, a + b) == Replay(Replay(es, a), b)
    decreases |a|
  {
    if a == [] {
      assert a + b == b;
    } else {
      assert (a + b)[1..] == a[1..] + b;
      ReplayApp(Apply(es, a[0]), a[1..], b);
    }
  }

  /** The edges of the control-flow graph, several from one block to another counted once. */
  ghost function CfgEdges(f: Func): EdgeSet {
    set p, k | p in f.blocks && 0 <= k < |f.blocks[p].term.succs| :: (p, f.blocks[p].term.succs[k])
  }

  lemma EdgeIn(f: Func, p: Label, q: Label)
    ensures (p, q) in CfgEdges(f) <==> Edges(f, p, q) > 0
  {
    if p in f.blocks {
      CountIn(f.blocks[p].term.succs, q);
      var succs := f.blocks[p].term.succs;
      if q in succs {
        var k :| 0 <= k < |succs| && succs[k] == q;
        assert (p, succs[k]) in CfgEdges(f);
      }
    }
  }

  /** Two functions with the same edge counts have the same edges. */
  lemma SameEdges(f: Func, es: EdgeSet)
    requires forall p: Label, q: Label {:trigger (p, q) in es} :: (p, q) in es <==> Edges(f, p, q) > 0
    ensures CfgEdges(f) == es
  {
    forall e ensures e in CfgEdges(f) <==> e in es {
      EdgeIn(f, e.0, e.1);
      assert e == (e.0, e.1);
      assert (e.0, e.1) in es <==> Edges(f, e.0, e.1) > 0;
    }
  }

  // ----- Branches on constants -------------------------------------------------------------------

  /** The edge is deleted unless the branch led to the same block both ways. */
  function EliminateLog(f: Func, l: Label): seq<Update> {
    if ConstantBranch(f, l) then
      var succs := f.blocks[l].term.succs;
      var i := RemovedIndex(f, l);
      if succs[1 - i] != succs[i] then [Delete(l, succs[i])] else []
    else []
  }

  lemma DropEdgeEdges(f: Func, l: Label, kind: Kind, i: nat, p: Label, q: Label)
    requires l in f.blocks && i < |f.blocks[l].term.succs| && f.blocks[l].term.succs[i] in f.blocks
    ensures Edges(DropEdge(f, l, kind, i), p, q) == Edges(f, p, q) - if p == l && q == f.blocks[l].term.succs[i] then 1 else 0
  {
    DroppedEdges(f, l, kind, i, p, q);
    EdgesAfterErase(DropEdgeOnly(f, l, kind, i), f.blocks[l].term.succs[i], p, q);
  }

  lemma EliminateAtUpdates(f: Func, l: Label)
    ensures CfgEdges(EliminateAt(f, l)) == Replay(CfgEdges(f), EliminateLog(f, l))
  {
    if ConstantBranch(f, l) {
      var succs := f.blocks[l].term.succs;
      var i := RemovedIndex(f, l);
      var es := Replay(CfgEdges(f), EliminateLog(f, l));
      var g := EliminateAt(f, l);
      var u := Delete(l, succs[i]);
      assert [u][1..] == [] && Replay(CfgEdges(f), [u]) == Apply(CfgEdges(f), u);
      forall p: Label, q: Label ensures (p, q) in es <==> Edges(g, p, q) > 0 {
        EdgeIn(f, p, q);
        DropEdgeEdges(f, l, Jump, i, p, q);
        if p == l {
          TwoEdges(succs, q);
        }
      }
      SameEdges(g, es);
    }
  }

  lemma TwoEdges(succs: seq<Label>, q: Label)
    requires |succs| == 2
    ensures Count(succs, q) == (if succs[0] == q then 1 else 0) + if succs[1] == q then 1 else 0
  {
    assert succs[1..] == [succs[1]] && [succs[1]][1..] == [];
    assert Count(succs[1..], q) == if succs[1] == q then 1 else 0;
  }

  function EliminatePassLog(f: Func, ls: seq<Label>): seq<Update>
    decreases |ls|
  {
    if ls == [] then [] else EliminateLog(f, ls[0]) + EliminatePassLog(EliminateAt(f, ls[0]), ls[1..])
  }

  /** The whole pass: its log, replayed on the old edges, gives the new ones. */
  lemma {:induction false} EliminateUpdates(f: Func, ls: seq<Label>)
    ensures CfgEdges(Eliminate(f, ls)) == Replay(CfgEdges(f), EliminatePassLog(f, ls))
    decreases |ls|
  {
    if ls != [] {
      EliminateAtUpdates(f, ls[0]);
      EliminateUpdates(EliminateAt(f, ls[0]), ls[1..]);
      ReplayApp(CfgEdges(f), EliminateLog(f, ls[0]), EliminatePassLog(EliminateAt(f, ls[0]), ls[1..]));
    }
  }

  // ----- Blocks without predecessors ----------------------------------------------------------------

  function DeleteEach(l: Label, succs: seq<Label>): seq<Update> {
    if succs == [] then [] else [Delete(l, succs[0])] + DeleteEach(l, succs[1..])
  }

  ghost function RemoveDeadLog(f: Func, l: Label): seq<Update> {
    if Dead(f, l) then DeleteEach(l, f.blocks[l].term.succs) else []
  }

  lemma {:induction false} ReplayDeleteEach(es: EdgeSet, l: Label, succs: seq<Label>, e: (Label, Label))
    ensures e in Replay(es, DeleteEach(l, succs)) <==> e in es && !(e.0 == l && e.1 in succs)
    decreases |succs|
  {
    if succs != [] {
      ReplayDeleteEach(es - {(l, succs[0])}, l, succs[1..], e);
      assert DeleteEach(l, succs)[1..] == DeleteEach(l, succs[1..]);
      assert e.1 in succs <==> e.1 == succs[0] || e.1 in succs[1..];
    }
  }

  lemma {:induction false} DropSuccessorsTerm(f: Func, l: Label, succs: seq<Label>, p: Label, q: Label)
    ensures Edges(DropSuccessors(f, l, succs), p, q) == Edges(f, p, q)
    decreases |succs|
  {
    if succs != [] {
      if succs[0] in f.blocks {
        RemovePredecessorEdges(f, succs[0], l, p, q);
        DropSuccessorsTerm(RemovePredecessor(f, succs[0], l), l, succs[1..], p, q);
      } else {
        DropSuccessorsTerm(f, l, succs[1..], p, q);
      }
    }
  }

  lemma RemoveBlockEdges(f: Func, l: Label, p: Label, q: Label)
    requires l in f.blocks
    ensures Edges(RemoveBlock(f, l), p, q) == if p == l then 0 else Edges(f, p, q)
  {
    if p in f.blocks && p != l {
      SubBlockDefs(f.blocks[p], Defs(f.blocks[l]), Undef);
    }
  }

  lemma RemoveDeadAtUpdates(f: Func, l: Label)
    ensures CfgEdges(RemoveDeadAt(f, l)) == Replay(CfgEdges(f), RemoveDeadLog(f, l))
  {
    if Dead(f, l) {
      var succs := f.blocks[l].term.succs;
      var es := Replay(CfgEdges(f), RemoveDeadLog(f, l));
      var g := RemoveDeadAt(f, l);
      DropSuccessorsKeys(f, l, succs);
      forall p: Label, q: Label ensures (p, q) in es <==> Edges(g, p, q) > 0 {
        ReplayDeleteEach(CfgEdges(f), l, succs, (p, q));
        EdgeIn(f, p, q);
        DropSuccessorsTerm(f, l, succs, p, q);
        RemoveBlockEdges(DropSuccessors(f, l, succs), l, p, q);
        CountIn(succs, q);
      }
      SameEdges(g, es);
    }
  }

  ghost function RemoveDeadPassLog(f: Func, ls: seq<Label>): seq<Update>
    decreases |ls|
  {
    if ls == [] then [] else RemoveDeadLog(f, ls[0]) + RemoveDeadPassLog(RemoveDeadAt(f, ls[0]), ls[1..])
  }

  lemma {:induction false} RemoveDeadUpdates(f: Func, ls: seq<Label>)
    ensures CfgEdges(RemoveDead(f, ls)) == Replay(CfgEdges(f), RemoveDeadPassLog(f, ls))
    decreases |ls|
  {
    if ls != [] {
      RemoveDeadAtUpdates(f, ls[0]);
      RemoveDeadUpdates(RemoveDeadAt(f, ls[0]), ls[1..]);
      ReplayApp(CfgEdges(f), RemoveDeadLog(f, ls[0]), RemoveDeadPassLog(RemoveDeadAt(f, ls[0]), ls[1..]));
    }
  }

  // ----- Merging ---------------------------------------------------------------------------------------

  /** The edges of bb become edges of pred. */
  function MoveEach(bb: Label, pred: Label, succs: seq<Label>): seq<Update> {
    if succs == [] then [] else [Delete(bb, succs[0]), Insert(pred, succs[0])] + MoveEach(bb, pred, succs[1..])
  }

  function MergeIntoLog(f: Func, bb: Label, pred: Label): seq<Update>
    requires bb in f.blocks
  {
    MoveEach(bb, pred, f.blocks[bb].term.succs) + [Delete(pred, bb)]
  }

  ghost function MergeLog(f: Func, bb: Label): seq<Update> {
    if exists pred :: Mergeable(f, bb, pred) then
      var pred :| Mergeable(f, bb, pred);
      MergeIntoLog(f, bb, pred)
    else []
  }

  lemma {:induction false} ReplayMoveEach(es: EdgeSet, bb: Label, pred: Label, succs: seq<Label>, e: (Label, Label))
    requires pred != bb
    ensures e in Replay(es, MoveEach(bb, pred, succs))
      <==> (e.0 == pred && e.1 in succs) || (e in es && !(e.0 == bb && e.1 in succs))
    decreases |succs|
  {
    if succs != [] {
      var s := succs[0];
      var log := MoveEach(bb, pred, succs);
      assert log[1..][1..] == MoveEach(bb, pred, succs[1..]);
      assert log[0] == Delete(bb, s) && log[1..][0] == Insert(pred, s);
      assert Replay(es, log) == Replay(es - {(bb, s)} + {(pred, s)}, MoveEach(bb, pred, succs[1..]));
      ReplayMoveEach(es - {(bb, s)} + {(pred, s)}, bb, pred, succs[1..], e);
      assert e.1 in succs <==> e.1 == s || e.1 in succs[1..];
    }
  }

  /** A block without other predecessors is not its own successor. */
  lemma NotOwnSuccessor(f: Func, bb: Label, pred: Label)
    requires Mergeable(f, bb, pred)
    ensures bb !in f.blocks[bb].term.succs
  {
    assert Edges(f, bb, bb) == 0;
    CountIn(f.blocks[bb].term.succs, bb);
  }

  lemma MergeIntoUpdates(f: Func, bb: Label, pred: Label)
    requires Valid(f) && Mergeable(f, bb, pred) && MergeInto(f, bb, pred).Some?
    ensures CfgEdges(MergeInto(f, bb, pred).value) == Replay(CfgEdges(f), MergeIntoLog(f, bb, pred))
  {
    var g := MergeInto(f, bb, pred).value;
    var succs := f.blocks[bb].term.succs;
    var moved := Replay(CfgEdges(f), MoveEach(bb, pred, succs));
    var es := Replay(CfgEdges(f), MergeIntoLog(f, bb, pred));
    ReplayApp(CfgEdges(f), MoveEach(bb, pred, succs), [Delete(pred, bb)]);
    assert [Delete(pred, bb)][1..] == [] && Replay(moved, [Delete(pred, bb)]) == moved - {(pred, bb)};
    forall p: Label, q: Label ensures (p, q) in es <==> Edges(g, p, q) > 0 {
      ReplayMoveEach(CfgEdges(f), bb, pred, succs, (p, q));
      EdgeIn(f, p, q);
      MergedEdges(f, bb, pred, p, q);
      CountIn(succs, q);
      NotOwnSuccessor(f, bb, pred);
    }
    SameEdges(g, es);
  }

  /** Edge counts after a merge. */
  lemma MergedEdges(f: Func, bb: Label, pred: Label, p: Label, q: Label)
    requires Valid(f) && Mergeable(f, bb, pred) && MergeInto(f, bb, pred).Some?
    ensures Edges(MergeInto(f, bb, pred).value, p, q)
      == if p == bb || q == bb then 0 else if p == pred then Edges(f, bb, q) else Edges(f, p, q)
    ensures q != bb ==> Edges(f, pred, q) == 0
    ensures MergeInto(f, bb, pred).value.blocks.Keys == f.blocks.Keys - {bb}
  {
    var av :| Wf(f, av);
    MergeableSole(f, bb, pred);
    var av1 := ForwardAllCorrect(f, av, bb, pred);
    var h := ForwardAll(f, bb).value;
    var g := Splice(h, bb, pred);
    assert Edges(h, p, q) == Edges(f, p, q) && Edges(h, bb, q) == Edges(f, bb, q) && Edges(h, pred, q) == Edges(f, pred, q);
    if q != bb {
      SplicedEdges(h, av1, bb, pred, p, q);
    } else {
      SpliceWf(h, av1, bb, pred);
      if p in g.blocks {
        assert BlockOk(g, av1 - {bb}, p);
        var succs := g.blocks[p].term.succs;
        forall j | 0 <= j < |succs| ensures succs[j] != bb {
          assert EdgeOk(g, av1 - {bb}, p, succs[j]);
        }
        CountIn(succs, bb);
      }
    }
  }

  lemma MergeAtUpdates(f: Func, bb: Label)
    requires Valid(f) && MergeAt(f, bb).Some?
    ensures CfgEdges(MergeAt(f, bb).value) == Replay(CfgEdges(f), MergeLog(f, bb))
  {
    if exists pred :: Mergeable(f, bb, pred) {
      var p :| Mergeable(f, bb, p) && MergeAt(f, bb) == MergeInto(f, bb, p);
      var q :| Mergeable(f, bb, q) && MergeLog(f, bb) == MergeIntoLog(f, bb, q);
      MergeableUnique(f, bb, p, q);
      MergeIntoUpdates(f, bb, p);
    }
  }

  ghost function MergePassLog(f: Func, ls: seq<Label>): seq<Update>
    decreases |ls|
  {
    if ls == [] then []
    else MergeLog(f, ls[0]) + (match MergeAt(f, ls[0]) case None => [] case Some(g) => MergePassLog(g, ls[1..]))
  }

  /** The whole merge pass, through chains of merges. */
  lemma {:induction false} MergeUpdates(f: Func, ls: seq<Label>)
    requires Valid(f) && Merge(f, ls).Some?
    ensures CfgEdges(Merge(f, ls).value) == Replay(CfgEdges(f), MergePassLog(f, ls))
    decreases |ls|
  {
    if ls != [] {
      var g := MergeAt(f, ls[0]).value;
      MergeAtUpdates(f, ls[0]);
      MergeAtCorrect(f, ls[0]);
      MergeUpdates(g, ls[1..]);
      ReplayApp(CfgEdges(f), MergeLog(f, ls[0]), MergePassLog(g, ls[1..]));
    }
  }
}
