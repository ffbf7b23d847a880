/** Taking one edge out of the control-flow graph, when it is never followed. */
module SsaEdges {
  import opened Wrappers
  import opened SsaFunction
  import opened SsaRuns
  import opened SsaDead

  /** removeIncomingValue: the first entry from l goes. */
  function RemoveFrom(incoming: seq<Incoming>, l: Label): seq<Incoming> {
    if incoming == [] then []
    else if incoming[0].from == l then incoming[1..]
    else [incoming[0]] + RemoveFrom(incoming[1..], l)
  }

  function DropFrom(phis: seq<Phi>, l: Label): (r: seq<Phi>)
    ensures |r| == |phis|
    ensures forall k :: 0 <= k < |phis| ==> r[k] == Phi(phis[k].dst, RemoveFrom(phis[k].incoming, l))
  {
    if phis == [] then [] else [Phi(phis[0].dst, RemoveFrom(phis[0].incoming, l))] + DropFrom(phis[1..], l)
  }

  /** removePredecessor: one entry from l goes from every PHI node of block x. */
  function RemovePredecessor(f: Func, x: Label, l: Label): Func
    requires x in f.blocks
  {
    ErasePhis(DropEntries(f, x, l), x)
  }

  function DropEntries(f: Func, x: Label, l: Label): Func
    requires x in f.blocks
  {
    f.(blocks := f.blocks[x := f.blocks[x].(phis := DropFrom(f.blocks[x].phis, l))])
  }

  function Without(succs: seq<Label>, i: nat): seq<Label>
    requires i < |succs|
  {
    succs[..i] + succs[i + 1..]
  }

  /** The terminator of l becomes kind, without the i-th successor. */
  function SetTerm(f: Func, l: Label, kind: Kind, i: nat): Func
    requires l in f.blocks && i < |f.blocks[l].term.succs|
  {
    f.(blocks := f.blocks[l := f.blocks[l].(term := Term(kind, Without(f.blocks[l].term.succs, i)))])
  }

  function DropEdge(f: Func, l: Label, kind: Kind, i: nat): Func
    requires l in f.blocks && i < |f.blocks[l].term.succs| && f.blocks[l].term.succs[i] in f.blocks
  {
    RemovePredecessor(SetTerm(f, l, kind, i), f.blocks[l].term.succs[i], l)
  }

  /** The same before PHI nodes that became empty are erased. */
  function DropEdgeOnly(f: Func, l: Label, kind: Kind, i: nat): Func
    requires l in f.blocks && i < |f.blocks[l].term.succs| && f.blocks[l].term.succs[i] in f.blocks
  {
    DropEntries(SetTerm(f, l, kind, i), f.blocks[l].term.succs[i], l)
  }

  /** The edge is never followed: the condition is a constant that picks the other
      successor, or the block itself is dead. */
  ghost predicate NeverTaken(f: Func, l: Label, kind: Kind, i: nat)
    requires l in f.blocks && i < |f.blocks[l].term.succs|
  {
    var t := f.blocks[l].term;
    || (t.kind.CondJump? && t.kind.cond.Const? && kind == Jump && i == if t.kind.cond.n % 2 == 1 then 1 else 0)
    || (Dead(f, l) && kind == Erased)
  }

  // ----- Counting ---------------------------------------------------------------------------

  lemma {:induction false} CountApp(a: seq<Label>, b: seq<Label>, l: Label)
    ensures Count(a + b, l) == Count(a, l) + Count(b, l)
  {
    if a == [] {
      assert a + b == b;
    } else {
      assert (a + b)[1..] == a[1..] + b;
      CountApp(a[1..], b, l);
    }
  }

  lemma CountWithout(succs: seq<Label>, i: nat, l: Label)
    requires i < |succs|
    ensures Count(Without(succs, i), l) == Count(succs, l) - if succs[i] == l then 1 else 0
  {
    CountApp(succs[..i], succs[i + 1..], l);
    CountApp(succs[..i], [succs[i]] + succs[i + 1..], l);
    assert succs[..i] + ([succs[i]] + succs[i + 1..]) == succs;
    assert ([succs[i]] + succs[i + 1..])[1..] == succs[i + 1..];
  }

  lemma {:induction false} RemoveFromCount(incoming: seq<Incoming>, l: Label, p: Label)
    ensures FromCount(RemoveFrom(incoming, l), p) == FromCount(incoming, p) - if p == l && FromCount(incoming, l) > 0 then 1 else 0
    ensures forall k :: 0 <= k < |RemoveFrom(incoming, l)| ==> RemoveFrom(incoming, l)[k] in incoming
  {
    if incoming != [] && incoming[0].from != l {
      RemoveFromCount(incoming[1..], l, p);
      assert RemoveFrom(incoming, l)[1..] == RemoveFrom(incoming[1..], l);
    }
  }

  /** With entries that agree, removing one of several from the same block changes no value. */
  lemma {:induction false} ValueFromRemoved(incoming: seq<Incoming>, l: Label, from: Option<Label>)
    requires forall i, j {:trigger Agree(incoming[i], incoming[j])} :: 0 <= i < |incoming| && 0 <= j < |incoming| ==> Agree(incoming[i], incoming[j])
    requires from == Some(l) ==> FromCount(RemoveFrom(incoming, l), l) > 0
    ensures ValueFrom(RemoveFrom(incoming, l), from) == ValueFrom(incoming, from)
  {
    if incoming != [] {
      if incoming[0].from == l {
        if from == Some(l) {
          FirstValue(incoming[1..], l, incoming[0]);
        }
      } else {
        forall i, j | 0 <= i < |incoming[1..]| && 0 <= j < |incoming[1..]| ensures Agree(incoming[1..][i], incoming[1..][j]) {
          assert Agree(incoming[i + 1], incoming[j + 1]);
        }
        assert RemoveFrom(incoming, l)[1..] == RemoveFrom(incoming[1..], l);
        ValueFromRemoved(incoming[1..], l, from);
      }
    }
  }

  lemma {:induction false} FirstValue(incoming: seq<Incoming>, l: Label, e: Incoming)
    requires FromCount(incoming, l) > 0 && e.from == l
    requires forall j :: 0 <= j < |incoming| ==> Agree(e, incoming[j])
    ensures ValueFrom(incoming, Some(l)) == e.value
  {
    if incoming[0].from != l {
      FirstValue(incoming[1..], l, e);
    } else {
      assert Agree(e, incoming[0]);
    }
  }

  // ----- Well-formedness --------------------------------------------------------------------------

  lemma {:induction false} DropFromDefs(phis: seq<Phi>, l: Label)
    ensures PhiDefs(DropFrom(phis, l)) == PhiDefs(phis) && OncePhis(DropFrom(phis, l)) == OncePhis(phis)
  {
    if phis != [] {
      var last := |phis| - 1;
      assert DropFrom(phis, l)[..last] == DropFrom(phis[..last], l);
      DropFromDefs(phis[..last], l);
    }
  }

  /** Blocks of the changed function, compared with the original one. */
  lemma DroppedBlock(f: Func, l: Label, kind: Kind, i: nat, k: Label)
    requires l in f.blocks && i < |f.blocks[l].term.succs| && f.blocks[l].term.succs[i] in f.blocks && k in f.blocks
    ensures var g := DropEdgeOnly(f, l, kind, i);
      && g.blocks.Keys == f.blocks.Keys
      && g.blocks[k].phis == (if k == f.blocks[l].term.succs[i] then DropFrom(f.blocks[k].phis, l) else f.blocks[k].phis)
      && g.blocks[k].insts == f.blocks[k].insts
      && g.blocks[k].term == (if k == l then Term(kind, Without(f.blocks[l].term.succs, i)) else f.blocks[k].term)
      && PhiDefs(g.blocks[k].phis) == PhiDefs(f.blocks[k].phis) && Defs(g.blocks[k]) == Defs(f.blocks[k])
      && Once(g.blocks[k]) == Once(f.blocks[k])
  {
    DropFromDefs(f.blocks[k].phis, l);
  }

  lemma DroppedEdges(f: Func, l: Label, kind: Kind, i: nat, p: Label, k: Label)
    requires l in f.blocks && i < |f.blocks[l].term.succs| && f.blocks[l].term.succs[i] in f.blocks
    ensures Edges(DropEdgeOnly(f, l, kind, i), p, k) == Edges(f, p, k) - if p == l && k == f.blocks[l].term.succs[i] then 1 else 0
  {
    CountWithout(f.blocks[l].term.succs, i, k);
    if p in f.blocks {
      DroppedBlock(f, l, kind, i, p);
    }
  }

  lemma DroppedIncoming(f: Func, av: Avail, l: Label, kind: Kind, i: nat, e: Incoming)
    requires l in f.blocks && i < |f.blocks[l].term.succs| && f.blocks[l].term.succs[i] in f.blocks
    requires IncomingKnown(f, av, e)
    ensures IncomingKnown(DropEdgeOnly(f, l, kind, i), av, e)
  {
    DroppedBlock(f, l, kind, i, e.from);
  }

  lemma DroppedCounts(f: Func, av: Avail, l: Label, kind: Kind, i: nat, k: Label, phi: Phi, p: Label)
    requires l in f.blocks && i < |f.blocks[l].term.succs| && f.blocks[l].term.succs[i] in f.blocks && PhiOk(f, av, k, phi)
    ensures FromCount(if k == f.blocks[l].term.succs[i] then RemoveFrom(phi.incoming, l) else phi.incoming, p)
      == Edges(DropEdgeOnly(f, l, kind, i), p, k)
  {
    assert FromCount(phi.incoming, p) == Edges(f, p, k);
    assert FromCount(phi.incoming, l) == Edges(f, l, k);
    DroppedEdges(f, l, kind, i, p, k);
    DroppedEdges(f, l, kind, i, l, k);
    RemoveFromCount(phi.incoming, l, p);
  }

  lemma PlaceOf(incoming: seq<Incoming>, e: Incoming) returns (k: nat)
    requires e in incoming
    ensures k < |incoming| && incoming[k] == e
  {
    k :| 0 <= k < |incoming| && incoming[k] == e;
  }

  /** A PHI node with some of the entries of another. */
  lemma PhiOkFewer(f: Func, g: Func, av: Avail, k: Label, phi: Phi, phi': Phi)
    requires PhiOk(f, av, k, phi) && forall a :: 0 <= a < |phi'.incoming| ==> phi'.incoming[a] in phi.incoming
    requires forall p {:trigger FromCount(phi'.incoming, p)} :: FromCount(phi'.incoming, p) == Edges(g, p, k)
    requires forall e {:trigger IncomingKnown(g, av, e)} :: IncomingKnown(f, av, e) ==> IncomingKnown(g, av, e)
    ensures PhiOk(g, av, k, phi')
  {
    forall a, b | 0 <= a < |phi'.incoming| && 0 <= b < |phi'.incoming| ensures Agree(phi'.incoming[a], phi'.incoming[b]) {
      var a' := PlaceOf(phi.incoming, phi'.incoming[a]);
      var b' := PlaceOf(phi.incoming, phi'.incoming[b]);
      assert Agree(phi.incoming[a'], phi.incoming[b']);
    }
    forall a | 0 <= a < |phi'.incoming| ensures IncomingKnown(g, av, phi'.incoming[a]) {
      var a' := PlaceOf(phi.incoming, phi'.incoming[a]);
      assert IncomingKnown(f, av, phi.incoming[a']);
    }
  }

  lemma DroppedPhi(f: Func, av: Avail, l: Label, kind: Kind, i: nat, k: Label, phi: Phi)
    requires l in f.blocks && i < |f.blocks[l].term.succs| && f.blocks[l].term.succs[i] in f.blocks
    requires PhiOk(f, av, k, phi)
    ensures PhiOk(DropEdgeOnly(f, l, kind, i), av, k, if k == f.blocks[l].term.succs[i] then Phi(phi.dst, RemoveFrom(phi.incoming, l)) else phi)
  {
    var g := DropEdgeOnly(f, l, kind, i);
    var phi' := if k == f.blocks[l].term.succs[i] then Phi(phi.dst, RemoveFrom(phi.incoming, l)) else phi;
    forall p ensures FromCount(phi'.incoming, p) == Edges(g, p, k) {
      DroppedCounts(f, av, l, kind, i, k, phi, p);
    }
    RemoveFromCount(phi.incoming, l, l);
    forall e | IncomingKnown(f, av, e) ensures IncomingKnown(g, av, e) {
      DroppedIncoming(f, av, l, kind, i, e);
    }
    PhiOkFewer(f, g, av, k, phi, phi');
  }

  lemma DroppedOk(f: Func, av: Avail, l: Label, kind: Kind, i: nat, k: Label)
    requires Wf(f, av) && l in f.blocks && i < |f.blocks[l].term.succs| && f.blocks[l].term.succs[i] in f.blocks && k in f.blocks
    requires NeverTaken(f, l, kind, i)
    ensures BlockOk(DropEdgeOnly(f, l, kind, i), av, k)
  {
    var g := DropEdgeOnly(f, l, kind, i);
    assert BlockOk(f, av, k);
    DroppedBlock(f, l, kind, i, k);
    var succs := f.blocks[k].term.succs;
    forall j | 0 <= j < |g.blocks[k].term.succs| ensures EdgeOk(g, av, k, g.blocks[k].term.succs[j]) {
      var j' := if k == l && j >= i then j + 1 else j;
      assert g.blocks[k].term.succs[j] == succs[j'];
      assert EdgeOk(f, av, k, succs[j']);
    }
    forall j | 0 <= j < |g.blocks[k].phis| ensures PhiOk(g, av, k, g.blocks[k].phis[j]) {
      assert PhiOk(f, av, k, f.blocks[k].phis[j]);
      DroppedPhi(f, av, l, kind, i, k, f.blocks[k].phis[j]);
    }
  }

  /** The edge can be dropped at all. */
  lemma DropEdgeTarget(f: Func, av: Avail, l: Label, i: nat)
    requires Wf(f, av) && l in f.blocks && i < |f.blocks[l].term.succs|
    ensures f.blocks[l].term.succs[i] in f.blocks && f.blocks[l].term.succs[i] != f.entry
  {
    assert BlockOk(f, av, l);
    assert EdgeOk(f, av, l, f.blocks[l].term.succs[i]);
  }

  lemma DropEdgeOnlyWf(f: Func, av: Avail, l: Label, kind: Kind, i: nat)
    requires Wf(f, av) && l in f.blocks && i < |f.blocks[l].term.succs| && f.blocks[l].term.succs[i] in f.blocks
    requires NeverTaken(f, l, kind, i)
    ensures Wf(DropEdgeOnly(f, l, kind, i), av)
  {
    var g := DropEdgeOnly(f, l, kind, i);
    DroppedBlock(f, l, kind, i, l);
    forall k | k in g.blocks ensures BlockOk(g, av, k) {
      DroppedOk(f, av, l, kind, i, k);
    }
    forall k, j | k in g.blocks && j in g.blocks ensures Apart(g, k, j) {
      assert Apart(f, k, j);
      DroppedBlock(f, l, kind, i, k);
      DroppedBlock(f, l, kind, i, j);
    }
  }

  // ----- Behaviour ------------------------------------------------------------------------------------

  lemma {:induction false} PhisDropped(m: Machine, phis: seq<Phi>, l: Label, from: Option<Label>, regs: Regs)
    requires forall k :: 0 <= k < |phis| ==>
      ValueFrom(RemoveFrom(phis[k].incoming, l), from) == ValueFrom(phis[k].incoming, from)
    ensures EvalPhis(m, DropFrom(phis, l), from, regs) == EvalPhis(m, phis, from, regs)
  {
    if phis != [] {
      var last := |phis| - 1;
      assert DropFrom(phis, l)[..last] == DropFrom(phis[..last], l);
      PhisDropped(m, phis[..last], l, from, regs);
    }
  }

  /** Whichever edge control came over, it finds the same values in the PHI nodes. */
  lemma PhisSame(m: Machine, f: Func, av: Avail, l: Label, kind: Kind, i: nat, c: Config)
    requires l in f.blocks && i < |f.blocks[l].term.succs| && f.blocks[l].term.succs[i] in f.blocks
    requires Wf(f, av) && c.At? && c.block in f.blocks
    requires var g := DropEdgeOnly(f, l, kind, i); Wf(g, av) && Inv(g, av, c)
    ensures EvalPhis(m, DropEdgeOnly(f, l, kind, i).blocks[c.block].phis, c.prev, c.regs) == EvalPhis(m, f.blocks[c.block].phis, c.prev, c.regs)
  {
    var g := DropEdgeOnly(f, l, kind, i);
    var phis := f.blocks[c.block].phis;
    DroppedBlock(f, l, kind, i, c.block);
    if c.block == f.blocks[l].term.succs[i] {
      forall k | 0 <= k < |phis| ensures ValueFrom(RemoveFrom(phis[k].incoming, l), c.prev) == ValueFrom(phis[k].incoming, c.prev) {
        assert BlockOk(f, av, c.block) && PhiOk(f, av, c.block, phis[k]);
        assert BlockOk(g, av, c.block) && PhiOk(g, av, c.block, g.blocks[c.block].phis[k]);
        assert FromCount(g.blocks[c.block].phis[k].incoming, l) == Edges(g, l, c.block);
        ValueFromRemoved(phis[k].incoming, l, c.prev);
      }
      PhisDropped(m, phis, l, c.prev, c.regs);
    }
  }

  lemma DroppedStep(m: Machine, f: Func, av: Avail, l: Label, kind: Kind, i: nat, c: Config)
    requires l in f.blocks && i < |f.blocks[l].term.succs| && f.blocks[l].term.succs[i] in f.blocks
    requires NeverTaken(f, l, kind, i) && Wf(f, av) && Inv(f, av, c) && (Dead(f, l) ==> Untouched(f, l, c))
    requires var g := DropEdgeOnly(f, l, kind, i); Wf(g, av) && Inv(g, av, c)
    ensures Step(m, DropEdgeOnly(f, l, kind, i), c) == Step(m, f, c)
  {
    if c.At? {
      DroppedBlock(f, l, kind, i, c.block);
      PhisSame(m, f, av, l, kind, i, c);
      assert BlockOk(f, av, l);
    }
  }

  lemma {:induction false} DroppedRun(m: Machine, f: Func, av: Avail, l: Label, kind: Kind, i: nat, n: nat, regs: Regs, mem: Memory)
    requires l in f.blocks && i < |f.blocks[l].term.succs| && f.blocks[l].term.succs[i] in f.blocks
    requires NeverTaken(f, l, kind, i) && Wf(f, av) && regs.Keys == f.params
    ensures SameRun(m, f, DropEdgeOnly(f, l, kind, i), regs, mem, n)
  {
    var g := DropEdgeOnly(f, l, kind, i);
    if n > 0 {
      DroppedRun(m, f, av, l, kind, i, n - 1, regs, mem);
      DropEdgeOnlyWf(f, av, l, kind, i);
      InvRun(m, f, av, n - 1, regs, mem);
      InvRun(m, g, av, n - 1, regs, mem);
      if Dead(f, l) {
        UntouchedRun(m, f, av, l, n - 1, regs, mem);
      }
      DroppedStep(m, f, av, l, kind, i, Run(m, f, n - 1, Start(f, regs, mem)));
      SameRunStep(m, f, g, regs, mem, n - 1);
    } else {
      assert Start(f, regs, mem) == Start(g, regs, mem);
    }
  }

  /** Dropping an edge that is never followed keeps the function well-formed and changes
      nothing observable. */
  lemma DropEdgeCorrect(f: Func, av: Avail, l: Label, kind: Kind, i: nat) returns (av': Avail)
    requires Wf(f, av) && l in f.blocks && i < |f.blocks[l].term.succs| && f.blocks[l].term.succs[i] in f.blocks
    requires NeverTaken(f, l, kind, i)
    ensures Wf(DropEdge(f, l, kind, i), av') && Equivalent(f, DropEdge(f, l, kind, i))
  {
    var g := DropEdgeOnly(f, l, kind, i);
    DropEdgeOnlyWf(f, av, l, kind, i);
    forall m, regs: Regs, mem, n: nat | regs.Keys == f.params ensures SameRun(m, f, g, regs, mem, n) {
      DroppedRun(m, f, av, l, kind, i, n, regs, mem);
    }
    SameRunsEquivalent(f, g);
    DropEdgeTarget(f, av, l, i);
    av' := ErasePhisCorrect(g, av, f.blocks[l].term.succs[i]);
    EquivalentTrans(f, g, DropEdge(f, l, kind, i));
  }
}
