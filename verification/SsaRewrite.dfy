/** Replacing uses: what replaceAllUsesWith does to a function, and what it leaves alone. */
module SsaRewrite {
  import opened Wrappers
  import opened SsaFunction

  /** The value with the registers rs replaced by x. */
  function Sub(v: Value, rs: set<Reg>, x: Value): Value {
    if v.Use? && v.r in rs then x else v
  }

  function SubAll(vs: seq<Value>, rs: set<Reg>, x: Value): (r: seq<Value>)
    ensures |r| == |vs|
    ensures forall k :: 0 <= k < |vs| ==> r[k] == Sub(vs[k], rs, x)
  {
    if vs == [] then [] else [Sub(vs[0], rs, x)] + SubAll(vs[1..], rs, x)
  }

  function SubIncoming(incoming: seq<Incoming>, rs: set<Reg>, x: Value): (r: seq<Incoming>)
    ensures |r| == |incoming|
    ensures forall k :: 0 <= k < |incoming| ==> r[k] == Incoming(Sub(incoming[k].value, rs, x), incoming[k].from)
  {
    if incoming == [] then []
    else [Incoming(Sub(incoming[0].value, rs, x), incoming[0].from)] + SubIncoming(incoming[1..], rs, x)
  }

  function SubPhis(phis: seq<Phi>, rs: set<Reg>, x: Value): (r: seq<Phi>)
    ensures |r| == |phis|
    ensures forall k :: 0 <= k < |phis| ==> r[k] == Phi(phis[k].dst, SubIncoming(phis[k].incoming, rs, x))
  {
    if phis == [] then [] else [Phi(phis[0].dst, SubIncoming(phis[0].incoming, rs, x))] + SubPhis(phis[1..], rs, x)
  }

  function SubInsts(insts: seq<Inst>, rs: set<Reg>, x: Value): (r: seq<Inst>)
    ensures |r| == |insts|
    ensures forall k :: 0 <= k < |insts| ==> r[k] == insts[k].(args := SubAll(insts[k].args, rs, x))
  {
    if insts == [] then [] else [insts[0].(args := SubAll(insts[0].args, rs, x))] + SubInsts(insts[1..], rs, x)
  }

  function SubTerm(t: Term, rs: set<Reg>, x: Value): Term {
    match t.kind
    case CondJump(c) => t.(kind := CondJump(Sub(c, rs, x)))
    case SwitchOn(v, cases) => t.(kind := SwitchOn(Sub(v, rs, x), cases))
    case Return(v) => t.(kind := Return(Sub(v, rs, x)))
    case _ => t
  }

  function SubBlock(b: Block, rs: set<Reg>, x: Value): Block {
    Block(SubPhis(b.phis, rs, x), SubInsts(b.insts, rs, x), SubTerm(b.term, rs, x))
  }

  /** Every use of the registers rs, anywhere in the function, is replaced by x. */
  function SubBlocks(blocks: map<Label, Block>, rs: set<Reg>, x: Value): map<Label, Block> {
    map l | l in blocks :: SubBlock(blocks[l], rs, x)
  }

  // ----- What stays the same -----------------------------------------------------------------

  lemma {:induction false} SubIncomingFrom(incoming: seq<Incoming>, rs: set<Reg>, x: Value, from: Option<Label>, l: Label)
    ensures FromCount(SubIncoming(incoming, rs, x), l) == FromCount(incoming, l)
    ensures ValueFrom(SubIncoming(incoming, rs, x), from) == Sub(ValueFrom(incoming, from), rs, x)
  {
    if incoming != [] {
      assert SubIncoming(incoming, rs, x)[1..] == SubIncoming(incoming[1..], rs, x);
      SubIncomingFrom(incoming[1..], rs, x, from, l);
    }
  }

  /** PHI nodes that write the same registers, in the same order. */
  lemma {:induction false} SameDsts(phis: seq<Phi>, phis': seq<Phi>)
    requires |phis'| == |phis| && forall k :: 0 <= k < |phis| ==> phis'[k].dst == phis[k].dst
    ensures PhiDefs(phis') == PhiDefs(phis) && OncePhis(phis') == OncePhis(phis)
  {
    if phis != [] {
      SameDsts(phis[..|phis| - 1], phis'[..|phis| - 1]);
    }
  }

  lemma SubPhisDefs(phis: seq<Phi>, rs: set<Reg>, x: Value)
    ensures PhiDefs(SubPhis(phis, rs, x)) == PhiDefs(phis)
    ensures OncePhis(SubPhis(phis, rs, x)) == OncePhis(phis)
  {
    SameDsts(phis, SubPhis(phis, rs, x));
  }

  lemma SubPhisTake(phis: seq<Phi>, n: nat, rs: set<Reg>, x: Value)
    requires n <= |phis|
    ensures SubPhis(phis, rs, x)[..n] == SubPhis(phis[..n], rs, x)
  {
  }

  /** The last PHI node is evaluated last. */
  lemma EvalPhisLast(m: Machine, phis: seq<Phi>, before: seq<Phi>, last: Phi, from: Option<Label>, regs: Regs)
    requires phis == before + [last]
    ensures EvalPhis(m, phis, from, regs) == EvalPhis(m, before, from, regs)[last.dst := Eval(m, regs, ValueFrom(last.incoming, from))]
  {
    assert phis[..|phis| - 1] == before;
  }

  lemma SubPhisSnoc(phis: seq<Phi>, rs: set<Reg>, x: Value)
    requires phis != []
    ensures var last := phis[|phis| - 1];
      SubPhis(phis, rs, x) == SubPhis(phis[..|phis| - 1], rs, x) + [Phi(last.dst, SubIncoming(last.incoming, rs, x))]
  {
    SubPhisTake(phis, |phis| - 1, rs, x);
  }

  lemma {:induction false} SubInstsDefs(insts: seq<Inst>, rs: set<Reg>, x: Value)
    ensures InstDefs(SubInsts(insts, rs, x)) == InstDefs(insts)
    ensures OnceInsts(SubInsts(insts, rs, x)) == OnceInsts(insts)
  {
    if insts != [] {
      assert SubInsts(insts, rs, x)[1..] == SubInsts(insts[1..], rs, x);
      SubInstsDefs(insts[1..], rs, x);
    }
  }

  lemma SubBlockDefs(b: Block, rs: set<Reg>, x: Value)
    ensures var b' := SubBlock(b, rs, x);
      && Defs(b') == Defs(b) && PhiDefs(b'.phis) == PhiDefs(b.phis) && InstDefs(b'.insts) == InstDefs(b.insts)
      && Once(b') == Once(b) && b'.term.succs == b.term.succs && ShapeOk(b'.term) == ShapeOk(b.term)
  {
    SubPhisDefs(b.phis, rs, x);
    SubInstsDefs(b.insts, rs, x);
    SubTermShape(b.term, rs, x);
  }

  lemma SubTermShape(t: Term, rs: set<Reg>, x: Value)
    ensures SubTerm(t, rs, x).succs == t.succs && ShapeOk(SubTerm(t, rs, x)) == ShapeOk(t)
  {
  }

  // ----- What stays available -------------------------------------------------------------------

  /** Whatever is known in a is still known in b after the replacement. */
  predicate Covers(a: set<Reg>, b: set<Reg>, rs: set<Reg>, x: Value) {
    a - rs <= b && (a * rs != {} ==> Known(x, b))
  }

  lemma KnownSub(v: Value, a: set<Reg>, b: set<Reg>, rs: set<Reg>, x: Value)
    requires Known(v, a) && Covers(a, b, rs, x)
    ensures Known(Sub(v, rs, x), b)
  {
    if v.Use? && v.r in rs {
      assert v.r in a * rs;
    }
  }

  lemma {:induction false} InstsKnownSub(insts: seq<Inst>, a: set<Reg>, b: set<Reg>, rs: set<Reg>, x: Value)
    requires InstsKnown(insts, a) && Covers(a, b, rs, x) && InstDefs(insts) !! rs
    ensures InstsKnown(SubInsts(insts, rs, x), b)
  {
    if insts != [] {
      var args := insts[0].args;
      forall k | 0 <= k < |args| ensures Known(SubAll(args, rs, x)[k], b) {
        KnownSub(args[k], a, b, rs, x);
      }
      var d := insts[0].dst;
      assert (a + {d}) * rs == a * rs;
      InstsKnownSub(insts[1..], a + {d}, b + {d}, rs, x);
      assert SubInsts(insts, rs, x)[1..] == SubInsts(insts[1..], rs, x);
    }
  }

  lemma {:induction false} InstsKnownMore(insts: seq<Inst>, a: set<Reg>, b: set<Reg>)
    requires InstsKnown(insts, a) && a <= b
    ensures InstsKnown(insts, b)
  {
    if insts != [] {
      InstsKnownMore(insts[1..], a + {insts[0].dst}, b + {insts[0].dst});
    }
  }

  lemma KindKnownSub(t: Term, a: set<Reg>, b: set<Reg>, rs: set<Reg>, x: Value)
    requires KindKnown(t.kind, a) && Covers(a, b, rs, x)
    ensures KindKnown(SubTerm(t, rs, x).kind, b)
  {
    match t.kind
    case CondJump(c) => KnownSub(c, a, b, rs, x);
    case SwitchOn(v, _) => KnownSub(v, a, b, rs, x);
    case Return(v) => KnownSub(v, a, b, rs, x);
    case _ =>
  }

  // ----- Two replacements by undef are one ---------------------------------------------------------

  lemma SubTwiceBlock(b: Block, rs: set<Reg>, qs: set<Reg>)
    ensures SubBlock(SubBlock(b, rs, Undef), qs, Undef) == SubBlock(b, rs + qs, Undef)
  {
    forall vs: seq<Value>
      ensures SubAll(SubAll(vs, rs, Undef), qs, Undef) == SubAll(vs, rs + qs, Undef)
    {
    }
    forall incoming: seq<Incoming>
      ensures SubIncoming(SubIncoming(incoming, rs, Undef), qs, Undef) == SubIncoming(incoming, rs + qs, Undef)
    {
    }
    assert SubPhis(SubPhis(b.phis, rs, Undef), qs, Undef) == SubPhis(b.phis, rs + qs, Undef);
    assert SubInsts(SubInsts(b.insts, rs, Undef), qs, Undef) == SubInsts(b.insts, rs + qs, Undef);
  }

  lemma SubTwice(blocks: map<Label, Block>, rs: set<Reg>, qs: set<Reg>)
    ensures SubBlocks(SubBlocks(blocks, rs, Undef), qs, Undef) == SubBlocks(blocks, rs + qs, Undef)
  {
    forall l | l in blocks ensures SubBlock(SubBlock(blocks[l], rs, Undef), qs, Undef) == SubBlock(blocks[l], rs + qs, Undef) {
      SubTwiceBlock(blocks[l], rs, qs);
    }
  }

  lemma SubNoneBlock(b: Block, x: Value)
    ensures SubBlock(b, {}, x) == b
  {
    forall vs: seq<Value> ensures SubAll(vs, {}, x) == vs {
    }
    forall incoming: seq<Incoming> ensures SubIncoming(incoming, {}, x) == incoming {
    }
    assert SubPhis(b.phis, {}, x) == b.phis;
    assert SubInsts(b.insts, {}, x) == b.insts;
  }

  lemma SubNone(blocks: map<Label, Block>, x: Value)
    ensures SubBlocks(blocks, {}, x) == blocks
  {
    forall l | l in blocks ensures SubBlock(blocks[l], {}, x) == blocks[l] {
      SubNoneBlock(blocks[l], x);
    }
  }
}
