/** One sweep of merging is enough, and merging goes wrong only in unreachable code. */
module CfgFixpoint {
  import opened SsaFunction
  import opened SsaRuns
  import opened SsaForward
  import opened SsaSplice
  import opened CfgPasses
  import opened CfgUpdates

  // ----- What can be merged -----------------------------------------------------------------------

  /** Told from terminators alone: p leads only to q, by one edge, and no other block leads to q. */
  ghost predicate SoleRoute(f: Func, p: Label, q: Label) {
    && p in f.blocks && q in f.blocks && p != q && f.blocks[p].term.succs == [q]
    && forall r :: r in f.blocks && r != p ==> q !in f.blocks[r].term.succs
  }

  lemma MergeableIsSole(f: Func, p: Label, q: Label)
    ensures Mergeable(f, q, p) <==> SoleRoute(f, p, q)
  {
    forall r ensures r in f.blocks ==> (Edges(f, r, q) > 0 <==> q in f.blocks[r].term.succs) {
      if r in f.blocks {
        CountIn(f.blocks[r].term.succs, q);
      }
    }
    if SoleRoute(f, p, q) {
      assert [q][1..] == [] && Count([], q) == 0 && Count([q], q) == 1;
    }
  }

  // ----- One sweep ----------------------------------------------------------------------------

  /** A block that could be merged after a merge could be merged before, too. */
  lemma MergeCreatesNone(f: Func, bb: Label, pred: Label, c: Label, d: Label) returns (d0: Label)
    requires Valid(f) && Mergeable(f, bb, pred) && MergeInto(f, bb, pred).Some?
    requires Mergeable(MergeInto(f, bb, pred).value, c, d)
    ensures c != bb && Mergeable(f, c, d0) && d0 == if d == pred then bb else d
  {
    var g := MergeInto(f, bb, pred).value;
    MergedEdges(f, bb, pred, d, c);
    d0 := if d == pred then bb else d;
    assert Edges(g, d, c) == 1;
    forall q ensures Edges(f, q, c) == if q == d0 then 1 else 0 {
      MergedEdges(f, bb, pred, q, c);
      MergedEdges(f, bb, pred, pred, c);
      assert Edges(g, q, c) == if q == d then 1 else 0;
      assert Edges(g, pred, c) == if pred == d then 1 else 0;
      assert Edges(f, bb, c) == Edges(g, pred, c);
    }
    MergedSuccs(f, bb, pred, d);
  }

  lemma MergedSuccs(f: Func, bb: Label, pred: Label, k: Label)
    requires Valid(f) && Mergeable(f, bb, pred) && MergeInto(f, bb, pred).Some? && k in MergeInto(f, bb, pred).value.blocks
    ensures k in f.blocks && k != bb
    ensures MergeInto(f, bb, pred).value.blocks[k].term.succs == f.blocks[if k == pred then bb else k].term.succs
  {
    var av :| Wf(f, av);
    MergeableSole(f, bb, pred);
    var av1 := ForwardAllCorrect(f, av, bb, pred);
    SplicedBlock(ForwardAll(f, bb).value, av1, bb, pred, k);
  }

  lemma MergeAtCreatesNone(f: Func, bb: Label, c: Label, d: Label) returns (d0: Label)
    requires Valid(f) && MergeAt(f, bb).Some? && Mergeable(MergeAt(f, bb).value, c, d)
    ensures c != bb && Mergeable(f, c, d0)
  {
    if exists pred :: Mergeable(f, bb, pred) {
      var pred :| Mergeable(f, bb, pred) && MergeAt(f, bb) == MergeInto(f, bb, pred);
      d0 := MergeCreatesNone(f, bb, pred, c, d);
    } else {
      d0 := d;
    }
  }

  /** Whatever is mergeable after a sweep over ls was mergeable before, and is not in ls. */
  lemma {:induction false} SweepLeaves(f: Func, ls: seq<Label>, c: Label, d: Label) returns (d0: Label)
    requires Valid(f) && Merge(f, ls).Some? && Mergeable(Merge(f, ls).value, c, d)
    ensures c !in ls && Mergeable(f, c, d0)
    decreases |ls|
  {
    if ls == [] {
      d0 := d;
    } else {
      var g := MergeAt(f, ls[0]).value;
      MergeAtCorrect(f, ls[0]);
      var d1 := SweepLeaves(g, ls[1..], c, d);
      d0 := MergeAtCreatesNone(f, ls[0], c, d1);
    }
  }

  /** After a sweep that visits every block, in whatever order, no two blocks are left of which one
      leads only to the other and is the only way there. */
  lemma SweepIsFixpoint(f: Func, ls: seq<Label>)
    requires Valid(f) && Merge(f, ls).Some? && forall l :: l in f.blocks ==> l in ls
    ensures forall p, q :: !SoleRoute(Merge(f, ls).value, p, q)
  {
    var g := Merge(f, ls).value;
    forall p, q ensures !SoleRoute(g, p, q) {
      MergeableIsSole(g, p, q);
      if Mergeable(g, q, p) {
        var p0 := SweepLeaves(f, ls, q, p);
      }
    }
  }

  // ----- Reachable code ----------------------------------------------------------------------------

  predicate Path(f: Func, p: seq<Label>) {
    && |p| > 0 && p[0] == f.entry && f.entry in f.blocks
    && forall k :: 0 < k < |p| ==> Edges(f, p[k - 1], p[k]) > 0 && p[k] in f.blocks
  }

  ghost predicate Reachable(f: Func, l: Label) {
    exists p :: Path(f, p) && p[|p| - 1] == l
  }

  ghost predicate AllReachable(f: Func) {
    forall l :: l in f.blocks ==> Reachable(f, l)
  }

  /** On a path, what is available on entry to its last block was written on the way. */
  lemma {:induction false} WrittenOnPath(f: Func, av: Avail, p: seq<Label>, r: Reg) returns (k: nat)
    requires Wf(f, av) && Path(f, p) && p[|p| - 1] in f.blocks && r in av[p[|p| - 1]] && r !in f.params
    ensures k < |p| - 1 && p[k] in f.blocks && r in Defs(f.blocks[p[k]])
    decreases |p|
  {
    var n := |p| - 1;
    assert n > 0;
    var q := p[n - 1];
    assert Edges(f, q, p[n]) > 0;
    assert BlockOk(f, av, q);
    var succs := f.blocks[q].term.succs;
    CountIn(succs, p[n]);
    var j :| 0 <= j < |succs| && succs[j] == p[n];
    assert EdgeOk(f, av, q, succs[j]);
    if r in Defs(f.blocks[q]) {
      k := n - 1;
    } else {
      k := WrittenOnPath(f, av, p[..n], r);
    }
  }

  /** The first visit to a block on a path. */
  lemma {:induction false} FirstVisit(p: seq<Label>, l: Label) returns (k: nat)
    requires l in p
    ensures k < |p| && p[k] == l && l !in p[..k]
  {
    if p[0] == l {
      k := 0;
    } else {
      var j := FirstVisit(p[1..], l);
      k := j + 1;
      assert p[..k] == [p[0]] + p[1..][..j];
    }
  }

  lemma WrittenInOne(f: Func, av: Avail, l: Label, k: Label, r: Reg)
    requires Wf(f, av) && l in f.blocks && k in f.blocks && r in Defs(f.blocks[l]) && r in Defs(f.blocks[k])
    ensures l == k
  {
    assert Apart(f, l, k);
  }

  /** A reachable block has no PHI node that is, through its only edge, its own value. */
  lemma ReachableNotCircular(f: Func, av: Avail, bb: Label, pred: Label)
    requires Wf(f, av) && SoleEdge(f, bb, pred) && f.blocks[bb].phis != [] && Reachable(f, bb)
    ensures f.blocks[bb].phis[0].incoming != [] && f.blocks[bb].phis[0].incoming[0].value != Use(f.blocks[bb].phis[0].dst)
  {
    var phi := f.blocks[bb].phis[0];
    FirstCopies(f, av, bb, pred);
    if phi.incoming[0].value == Use(phi.dst) {
      var path :| Path(f, path) && path[|path| - 1] == bb;
      var k := FirstVisit(path, bb);
      assert k > 0 && Edges(f, path[k - 1], bb) > 0;
      assert path[k - 1] == pred;
      assert BlockOk(f, av, bb) && PhiOk(f, av, bb, phi) && IncomingKnown(f, av, phi.incoming[0]);
      PhiDefsFirst(f.blocks[bb].phis);
      assert Apart(f, bb, pred);
      var j := WrittenOnPath(f, av, path[..k], phi.dst);
      assert path[..k][j] in path[..k];
      WrittenInOne(f, av, bb, path[j], phi.dst);
      assert false;
    }
  }

  lemma SameEdgesReachable(f: Func, g: Func, l: Label)
    requires g.entry == f.entry && g.blocks.Keys == f.blocks.Keys && (forall p, q :: Edges(g, p, q) == Edges(f, p, q))
    requires Reachable(f, l)
    ensures Reachable(g, l)
  {
    var p :| Path(f, p) && p[|p| - 1] == l;
    assert Path(g, p);
  }

  /** In reachable code the PHI nodes of a mergeable block can always be forwarded. */
  lemma {:induction false} ForwardAllSucceeds(f: Func, av: Avail, bb: Label, pred: Label)
    requires Wf(f, av) && SoleEdge(f, bb, pred) && Reachable(f, bb)
    ensures ForwardAll(f, bb).Some?
    decreases |f.blocks[bb].phis|
  {
    if f.blocks[bb].phis != [] {
      ReachableNotCircular(f, av, bb, pred);
      FirstCopies(f, av, bb, pred);
      ForwardKeeps(f, av, bb, pred);
      var phi := f.blocks[bb].phis[0];
      ForwardWf(f, av, bb, pred, phi.dst, phi.incoming[0].value);
      SameEdgesReachable(f, ForwardPhi(f, bb), bb);
      ForwardAllSucceeds(ForwardPhi(f, bb), Forwarded(av, bb, phi.dst, phi.incoming[0].value), bb, pred);
    }
  }

  /** A path still leads to the same block when bb has been merged into pred. */
  lemma {:induction false} MergedPath(f: Func, bb: Label, pred: Label, p: seq<Label>) returns (p': seq<Label>)
    requires Valid(f) && Mergeable(f, bb, pred) && MergeInto(f, bb, pred).Some?
    requires Path(f, p)
    ensures Path(MergeInto(f, bb, pred).value, p') && p'[|p'| - 1] == Rename(p[|p| - 1], bb, pred)
    decreases |p|
  {
    var g := MergeInto(f, bb, pred).value;
    var n := |p| - 1;
    MergedEntry(f, bb, pred);
    if n == 0 {
      p' := p;
    } else {
      var q := p[n - 1];
      PathInit(f, p);
      p' := MergedPath(f, bb, pred, p[..n]);
      if p[n] == bb {
        assert q == pred;
      } else {
        MergedEdge(f, bb, pred, q, p[n]);
        PathSnoc(g, p', p[n]);
        p' := p' + [p[n]];
      }
    }
  }

  lemma PathInit(f: Func, p: seq<Label>)
    requires Path(f, p) && |p| > 1
    ensures var n := |p| - 1;
      Path(f, p[..n]) && p[..n][n - 1] == p[n - 1] && Edges(f, p[n - 1], p[n]) > 0 && p[n] in f.blocks
  {
  }

  lemma PathSnoc(f: Func, p: seq<Label>, l: Label)
    requires Path(f, p) && Edges(f, p[|p| - 1], l) > 0 && l in f.blocks
    ensures Path(f, p + [l])
  {
  }

  /** An edge to a block other than bb is still there after the merge. */
  lemma MergedEdge(f: Func, bb: Label, pred: Label, q: Label, l: Label)
    requires Valid(f) && Mergeable(f, bb, pred) && MergeInto(f, bb, pred).Some? && l != bb && Edges(f, q, l) > 0
    ensures Edges(MergeInto(f, bb, pred).value, Rename(q, bb, pred), l) > 0
  {
    MergedEdges(f, bb, pred, Rename(q, bb, pred), l);
    MergedEdges(f, bb, pred, pred, l);
  }

  lemma MergedEntry(f: Func, bb: Label, pred: Label)
    requires Valid(f) && Mergeable(f, bb, pred) && MergeInto(f, bb, pred).Some?
    ensures var g := MergeInto(f, bb, pred).value;
      g.entry == f.entry && f.entry != bb && f.entry in g.blocks && g.blocks.Keys == f.blocks.Keys - {bb}
  {
    MergedEdges(f, bb, pred, pred, bb);
    MergeableSole(f, bb, pred);
    MergeIntoCorrect(f, bb, pred);
    var av :| Wf(f, av);
    ForwardAllEntry(f, bb);
  }

  lemma {:induction false} ForwardAllEntry(f: Func, bb: Label)
    requires bb in f.blocks && ForwardAll(f, bb).Some?
    ensures ForwardAll(f, bb).value.entry == f.entry
    decreases |f.blocks[bb].phis|
  {
    if f.blocks[bb].phis != [] {
      ForwardAllEntry(ForwardPhi(f, bb), bb);
    }
  }

  /** With every block reachable, a merge never asserts, and every block stays reachable. */
  lemma MergeAtSucceeds(f: Func, bb: Label)
    requires Valid(f) && AllReachable(f)
    ensures MergeAt(f, bb).Some? && AllReachable(MergeAt(f, bb).value)
  {
    if exists pred :: Mergeable(f, bb, pred) {
      var pred :| Mergeable(f, bb, pred) && MergeAt(f, bb) == MergeInto(f, bb, pred);
      var av :| Wf(f, av);
      MergeableSole(f, bb, pred);
      ForwardAllSucceeds(f, av, bb, pred);
      var av1 := ForwardAllCorrect(f, av, bb, pred);
      MergedEntry(f, bb, pred);
      var g := MergeAt(f, bb).value;
      forall l | l in g.blocks ensures Reachable(g, l) {
        var p :| Path(f, p) && p[|p| - 1] == l;
        var p' := MergedPath(f, bb, pred, p);
      }
    }
  }

  /** In a function whose blocks are all reachable, the merge pass never asserts. */
  lemma {:induction false} MergeSucceeds(f: Func, ls: seq<Label>)
    requires Valid(f) && AllReachable(f)
    ensures Merge(f, ls).Some? && AllReachable(Merge(f, ls).value)
    decreases |ls|
  {
    if ls != [] {
      MergeAtSucceeds(f, ls[0]);
      MergeAtCorrect(f, ls[0]);
      MergeSucceeds(MergeAt(f, ls[0]).value, ls[1..]);
    }
  }
}
