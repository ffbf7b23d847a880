/** What the dominator tree is told: the log of a pass is cleaned up before it is applied, and what
    is left is exactly the difference between the edges before and after the pass. */
module CfgPermissive {
  import opened SsaFunction
  import opened SsaRuns
  import opened CfgPasses
  import opened CfgUpdates
  import opened CfgOrder
  import opened SimplifyCfg

  function Edge(u: Update): (Label, Label) {
    (u.from, u.to)
  }

  /** Edges from a block to itself say nothing about dominance. */
  predicate SelfDominance(u: Update) {
    u.from == u.to
  }

  /** isUpdateValid: the update agrees with the edges there are now. */
  predicate InPlace(u: Update, now: EdgeSet) {
    match u
    case Insert(_, _) => Edge(u) in now
    case Delete(_, _) => Edge(u) !in now
  }

  /** The updates that are submitted: the first one for each edge, if it is in place. */
  function Submitted(log: seq<Update>, seen: EdgeSet, now: EdgeSet): seq<Update>
    decreases |log|
  {
    if log == [] then []
    else if SelfDominance(log[0]) || Edge(log[0]) in seen then Submitted(log[1..], seen, now)
    else (if InPlace(log[0], now) then [log[0]] else []) + Submitted(log[1..], seen + {Edge(log[0])}, now)
  }

  predicate HasEdge(f: Func, p: Label, q: Label) {
    p in f.blocks && q in f.blocks[p].term.succs
  }

  lemma HasEdgeIs(f: Func, p: Label, q: Label)
    ensures HasEdge(f, p, q) <==> (p, q) in CfgEdges(f)
  {
    EdgeIn(f, p, q);
    if p in f.blocks {
      CountIn(f.blocks[p].term.succs, q);
    }
  }

  /** applyUpdatesPermissive, for the function as it is now. */
  method ApplyUpdatesPermissive(f: Func, log: seq<Update>) returns (submitted: seq<Update>)
    ensures submitted == Submitted(log, {}, CfgEdges(f))
  {
    submitted := [];
    var seen: EdgeSet := {};
    var i := 0;
    assert log[0..] == log;
    while i < |log|
      invariant 0 <= i <= |log|
      invariant submitted + Submitted(log[i..], seen, CfgEdges(f)) == Submitted(log, {}, CfgEdges(f))
    {
      var u := log[i];
      assert log[i..][0] == u && log[i..][1..] == log[i + 1..];
      if u.from != u.to && (u.from, u.to) !in seen {
        HasEdgeIs(f, u.from, u.to);
        ghost var rest := Submitted(log[i + 1..], seen + {Edge(u)}, CfgEdges(f));
        seen := seen + {(u.from, u.to)};
        if u.Insert? == HasEdge(f, u.from, u.to) {
          assert submitted + ([u] + rest) == (submitted + [u]) + rest;
          submitted := submitted + [u];
        } else {
          assert [] + rest == rest;
        }
      }
      i := i + 1;
    }
    assert submitted + [] == submitted;
  }

  // ----- What is submitted ------------------------------------------------------------------------

  predicate Changes(u: Update, before: EdgeSet, after: EdgeSet) {
    u.from != u.to && match u
      case Insert(p, q) => (p, q) !in before && (p, q) in after
      case Delete(p, q) => (p, q) in before && (p, q) !in after
  }

  /** The updates are exactly the difference between the edges before and after, each of them once. */
  ghost predicate Difference(before: EdgeSet, after: EdgeSet, us: seq<Update>) {
    && (forall i :: 0 <= i < |us| ==> Changes(us[i], before, after))
    && (forall i, j :: 0 <= i < j < |us| ==> Edge(us[i]) != Edge(us[j]))
    && (forall e: (Label, Label) :: e.0 != e.1 && (e in before <==> e !in after) ==> Mentions(us, e))
  }

  ghost predicate Mentions(us: seq<Update>, e: (Label, Label)) {
    exists i :: 0 <= i < |us| && Edge(us[i]) == e
  }

  /** What the clean-up relies on: the first update of an edge tells whether the edge was there. */
  ghost predicate FirstTells(before: EdgeSet, seen: EdgeSet, log: seq<Update>)
    decreases |log|
  {
    if log == [] then true
    else if SelfDominance(log[0]) || Edge(log[0]) in seen then FirstTells(before, seen, log[1..])
    else (log[0].Delete? <==> Edge(log[0]) in before) && FirstTells(before, seen + {Edge(log[0])}, log[1..])
  }

  lemma MentionsCons(u: Update, rest: seq<Update>, e: (Label, Label))
    ensures Mentions([u] + rest, e) <==> Edge(u) == e || Mentions(rest, e)
  {
    if Mentions(rest, e) {
      var i :| 0 <= i < |rest| && Edge(rest[i]) == e;
      assert ([u] + rest)[i + 1] == rest[i];
    }
    if Edge(u) == e {
      assert ([u] + rest)[0] == u;
    }
  }

  /** Every update that is submitted is of an edge that was not seen before, and is a change. */
  lemma {:induction false} SubmittedTrue(log: seq<Update>, seen: EdgeSet, before: EdgeSet, now: EdgeSet)
    requires FirstTells(before, seen, log)
    ensures AllChange(Submitted(log, seen, now), seen, before, now)
    decreases |log|
  {
    if log == [] {
    } else if SelfDominance(log[0]) || Edge(log[0]) in seen {
      SubmittedTrue(log[1..], seen, before, now);
    } else {
      var u := log[0];
      var more := Submitted(log[1..], seen + {Edge(u)}, now);
      SubmittedTrue(log[1..], seen + {Edge(u)}, before, now);
      if InPlace(u, now) {
        AllChangeCons(u, more, seen, before, now);
      } else {
        assert [] + more == more;
      }
    }
  }

  ghost predicate AllChange(us: seq<Update>, seen: EdgeSet, before: EdgeSet, now: EdgeSet) {
    && (forall i :: 0 <= i < |us| ==> Edge(us[i]) !in seen && Changes(us[i], before, now))
    && (forall i, j :: 0 <= i < j < |us| ==> Edge(us[i]) != Edge(us[j]))
  }

  lemma AllChangeCons(u: Update, more: seq<Update>, seen: EdgeSet, before: EdgeSet, now: EdgeSet)
    requires AllChange(more, seen + {Edge(u)}, before, now) && Edge(u) !in seen && Changes(u, before, now)
    ensures AllChange([u] + more, seen, before, now)
  {
    var us := [u] + more;
    forall i | 0 <= i < |us| ensures Edge(us[i]) !in seen && Changes(us[i], before, now) {
      assert i > 0 ==> us[i] == more[i - 1];
    }
    forall i, j | 0 <= i < j < |us| ensures Edge(us[i]) != Edge(us[j]) {
      assert us[j] == more[j - 1];
      assert i > 0 ==> us[i] == more[i - 1];
    }
  }

  /** An edge that has changed, and has an update, is among them. */
  lemma {:induction false} SubmittedAll(log: seq<Update>, seen: EdgeSet, before: EdgeSet, now: EdgeSet, e: (Label, Label))
    requires FirstTells(before, seen, log) && e.0 != e.1 && e !in seen && Mentions(log, e) && (e in before <==> e !in now)
    ensures Mentions(Submitted(log, seen, now), e)
    decreases |log|
  {
    var u, rest := log[0], log[1..];
    assert log == [u] + rest;
    MentionsCons(u, rest, e);
    if SelfDominance(u) || Edge(u) in seen {
      SubmittedAll(rest, seen, before, now, e);
    } else {
      var more := Submitted(rest, seen + {Edge(u)}, now);
      if Edge(u) != e {
        SubmittedAll(rest, seen + {Edge(u)}, before, now, e);
        assert [] + more == more;
      }
      MentionsCons(u, more, e);
    }
  }

  lemma {:induction false} ReplayTouches(es: EdgeSet, log: seq<Update>, e: (Label, Label))
    requires !Mentions(log, e)
    ensures e in Replay(es, log) <==> e in es
    decreases |log|
  {
    if log != [] {
      assert log == [log[0]] + log[1..];
      MentionsCons(log[0], log[1..], e);
      ReplayTouches(Apply(es, log[0]), log[1..], e);
      assert e == (e.0, e.1);
    }
  }

  lemma SubmittedExact(before: EdgeSet, log: seq<Update>)
    requires FirstTells(before, {}, log)
    ensures Difference(before, Replay(before, log), Submitted(log, {}, Replay(before, log)))
  {
    var after := Replay(before, log);
    SubmittedTrue(log, {}, before, after);
    forall e: (Label, Label) | e.0 != e.1 && (e in before <==> e !in after) ensures Mentions(Submitted(log, {}, after), e) {
      if !Mentions(log, e) {
        ReplayTouches(before, log, e);
      }
      SubmittedAll(log, {}, before, after, e);
    }
  }

  // ----- The logs of the passes ---------------------------------------------------------------------

  /** Every update tells whether its edge was there. */
  ghost predicate Truthful(before: EdgeSet, log: seq<Update>) {
    forall i :: 0 <= i < |log| ==> (log[i].Delete? <==> Edge(log[i]) in before)
  }

  lemma {:induction false} TruthfulTells(before: EdgeSet, seen: EdgeSet, log: seq<Update>)
    requires Truthful(before, log)
    ensures FirstTells(before, seen, log)
    decreases |log|
  {
    if log != [] {
      TruthfulTells(before, seen, log[1..]);
      TruthfulTells(before, seen + {Edge(log[0])}, log[1..]);
    }
  }

  lemma {:induction false} TellsMore(before: EdgeSet, seen: EdgeSet, before': EdgeSet, seen': EdgeSet, log: seq<Update>)
    requires FirstTells(before, seen, log) && seen <= seen'
    requires forall e: (Label, Label) {:trigger e in before'} :: e.0 != e.1 && e !in seen' ==> (e in before <==> e in before')
    ensures FirstTells(before', seen', log)
    decreases |log|
  {
    if log == [] {
    } else if SelfDominance(log[0]) {
      TellsMore(before, seen, before', seen', log[1..]);
    } else if Edge(log[0]) in seen {
      TellsMore(before, seen, before', seen', log[1..]);
    } else if Edge(log[0]) in seen' {
      TellsMore(before, seen + {Edge(log[0])}, before', seen', log[1..]);
    } else {
      TellsMore(before, seen + {Edge(log[0])}, before', seen' + {Edge(log[0])}, log[1..]);
    }
  }

  /** One log after another, the second for the edges after the first. */
  lemma {:induction false} TellsApp(before: EdgeSet, seen: EdgeSet, a: seq<Update>, middle: EdgeSet, b: seq<Update>)
    requires FirstTells(before, seen, a) && FirstTells(middle, {}, b)
    requires forall e: (Label, Label) {:trigger e in middle} ::
      e.0 != e.1 && e !in seen && !Mentions(a, e) ==> (e in middle <==> e in before)
    ensures FirstTells(before, seen, a + b)
    decreases |a|
  {
    if a == [] {
      assert a + b == b;
      TellsMore(middle, {}, before, seen, b);
    } else {
      var u, rest := a[0], a[1..];
      assert (a + b)[1..] == rest + b && a == [u] + rest;
      forall e: (Label, Label) ensures Mentions(a, e) <==> Edge(u) == e || Mentions(rest, e) {
        MentionsCons(u, rest, e);
      }
      TellsApp(before, if SelfDominance(u) || Edge(u) in seen then seen else seen + {Edge(u)}, rest, middle, b);
    }
  }

  lemma TellsNext(before: EdgeSet, a: seq<Update>, b: seq<Update>)
    requires Truthful(before, a) && FirstTells(Replay(before, a), {}, b)
    ensures FirstTells(before, {}, a + b)
  {
    TruthfulTells(before, {}, a);
    forall e: (Label, Label) | !Mentions(a, e) ensures e in Replay(before, a) <==> e in before {
      ReplayTouches(before, a, e);
    }
    TellsApp(before, {}, a, Replay(before, a), b);
  }

  lemma {:induction false} EliminateTells(f: Func, ls: seq<Label>)
    ensures FirstTells(CfgEdges(f), {}, EliminatePassLog(f, ls))
    decreases |ls|
  {
    if ls != [] {
      var log := EliminateLog(f, ls[0]);
      EliminateTells(EliminateAt(f, ls[0]), ls[1..]);
      EliminateAtUpdates(f, ls[0]);
      if ConstantBranch(f, ls[0]) {
        var succs := f.blocks[ls[0]].term.succs;
        HasEdgeIs(f, ls[0], succs[RemovedIndex(f, ls[0])]);
      }
      TellsNext(CfgEdges(f), log, EliminatePassLog(EliminateAt(f, ls[0]), ls[1..]));
    }
  }

  lemma {:induction false} DeleteEachIs(l: Label, succs: seq<Label>)
    ensures forall i :: 0 <= i < |DeleteEach(l, succs)| ==>
      var u := DeleteEach(l, succs)[i]; u.Delete? && u.from == l && u.to in succs
  {
    if succs != [] {
      DeleteEachIs(l, succs[1..]);
    }
  }

  lemma {:induction false} RemoveDeadTells(f: Func, ls: seq<Label>)
    ensures FirstTells(CfgEdges(f), {}, RemoveDeadPassLog(f, ls))
    decreases |ls|
  {
    if ls != [] {
      var l, log := ls[0], RemoveDeadLog(f, ls[0]);
      RemoveDeadTells(RemoveDeadAt(f, l), ls[1..]);
      RemoveDeadAtUpdates(f, l);
      if Dead(f, l) {
        DeleteEachIs(l, f.blocks[l].term.succs);
        forall i | 0 <= i < |log| ensures log[i].Delete? <==> Edge(log[i]) in CfgEdges(f) {
          HasEdgeIs(f, l, log[i].to);
        }
      }
      TellsNext(CfgEdges(f), log, RemoveDeadPassLog(RemoveDeadAt(f, l), ls[1..]));
    }
  }

  lemma {:induction false} MoveEachIs(bb: Label, pred: Label, succs: seq<Label>)
    ensures forall i :: 0 <= i < |MoveEach(bb, pred, succs)| ==>
      var u := MoveEach(bb, pred, succs)[i]; u.to in succs && u.from == if u.Delete? then bb else pred
  {
    if succs != [] {
      MoveEachIs(bb, pred, succs[1..]);
    }
  }

  lemma MergeTruthful(f: Func, bb: Label, pred: Label)
    requires Mergeable(f, bb, pred)
    ensures Truthful(CfgEdges(f), MergeIntoLog(f, bb, pred))
  {
    var succs, log := f.blocks[bb].term.succs, MergeIntoLog(f, bb, pred);
    MoveEachIs(bb, pred, succs);
    NotOwnSuccessor(f, bb, pred);
    forall i | 0 <= i < |log| ensures log[i].Delete? <==> Edge(log[i]) in CfgEdges(f) {
      HasEdgeIs(f, log[i].from, log[i].to);
      if i < |log| - 1 {
        assert log[i] == MoveEach(bb, pred, succs)[i];
      }
    }
  }

  lemma {:induction false} MergeTells(f: Func, ls: seq<Label>)
    requires Valid(f) && Merge(f, ls).Some?
    ensures FirstTells(CfgEdges(f), {}, MergePassLog(f, ls))
    decreases |ls|
  {
    if ls != [] {
      var log, g := MergeLog(f, ls[0]), MergeAt(f, ls[0]).value;
      MergeAtUpdates(f, ls[0]);
      MergeAtCorrect(f, ls[0]);
      MergeTells(g, ls[1..]);
      if exists pred :: Mergeable(f, ls[0], pred) {
        var pred :| Mergeable(f, ls[0], pred) && log == MergeIntoLog(f, ls[0], pred);
        MergeTruthful(f, ls[0], pred);
      }
      TellsNext(CfgEdges(f), log, MergePassLog(g, ls[1..]));
    }
  }

  /** For each of the three passes, over any list of blocks: what is submitted to the dominator tree is
      exactly the difference between the control-flow edges before and after, each edge once, although
      the log of the pass has duplicates and edges that were added and removed again. */
  lemma PassSubmits(f: Func, ls: seq<Label>, pass: Pass)
    requires Valid(f) && AfterPass(f, ls, pass).Some?
    ensures var g := AfterPass(f, ls, pass).value;
      Difference(CfgEdges(f), CfgEdges(g), Submitted(PassLog(f, ls, pass), {}, CfgEdges(g)))
  {
    match pass {
      case CondBranches => EliminateTells(f, ls);
      case SinglePredecessors => MergeTells(f, ls);
      case DeadBlocks => RemoveDeadTells(f, ls);
    }
    PassUpdates(f, ls, pass);
    SubmittedExact(CfgEdges(f), PassLog(f, ls, pass));
  }
}
