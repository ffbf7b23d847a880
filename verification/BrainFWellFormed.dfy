/** The compiled function is well-formed code: every block is terminated, every PHI node
    has exactly one incoming value per predecessor edge, and on every path from the
    entry a register is defined before it is used. */
module BrainFWellFormed {
  import opened BrainFLanguage
  import opened BrainFMachine
  import opened BrainFEmit

  // ----- Terminators and PHI nodes --------------------------------------------------------

  /** How many edges lead from a block ending in t to the target. */
  function EdgeCount(t: Term, target: BlockId): nat {
    match t
    case Br(x) => if x == target then 1 else 0
    case CondBr(_, x, y) => (if x == target then 1 else 0) + (if y == target then 1 else 0)
    case _ => 0
  }

  /** How many incoming values come from a block. */
  function FromCount(incoming: seq<Incoming>, from: BlockId): nat {
    if incoming == [] then 0
    else FromCount(incoming[..|incoming| - 1], from) + (if incoming[|incoming| - 1].from == from then 1 else 0)
  }

  predicate TargetsIn(t: Term, n: nat) {
    match t
    case Br(x) => x < n
    case CondBr(_, x, y) => x < n && y < n
    case _ => true
  }

  /** One incoming value of the PHI node per edge, from every block. */
  ghost predicate PhiMatches(code: Code, target: BlockId, phi: Phi) {
    forall p: BlockId {:trigger FromCount(phi.incoming, p)} :: FromCount(phi.incoming, p) == if p < |code| then EdgeCount(code[p].term, target) else 0
  }

  ghost predicate PhisMatch(code: Code) {
    forall i, k {:trigger PhiMatches(code, i, code[i].phis[k])} ::
      0 <= i < |code| && 0 <= k < |code[i].phis| ==> PhiMatches(code, i, code[i].phis[k])
  }

  /** Code under construction: only the current block and the test blocks of the open
      loops lack a terminator. */
  ghost predicate Wf(b: Builder, open: set<BlockId>) {
    && b.Valid() && b.cur !in open && b.cur != END && END < |b.code|
    && (forall o :: o in open ==> o < |b.code|)
    && (forall i :: 0 <= i < |b.code| ==> (b.code[i].term.Open? <==> i == b.cur || i in open))
    && (forall i :: 0 <= i < |b.code| ==> TargetsIn(b.code[i].term, |b.code|))
    && PhisMatch(b.code)
  }

  lemma FromCountSingle(i: Incoming, p: BlockId)
    ensures FromCount([i], p) == if i.from == p then 1 else 0
  {
    assert FromCount([i][..0], p) == 0;
  }

  lemma FromCountPair(i: Incoming, j: Incoming, p: BlockId)
    ensures FromCount([i, j], p) == (if i.from == p then 1 else 0) + (if j.from == p then 1 else 0)
  {
    assert [i, j][..1] == [i];
    FromCountSingle(i, p);
  }

  lemma NoEdgeOut(code: Code, target: BlockId)
    requires forall i :: 0 <= i < |code| ==> TargetsIn(code[i].term, |code|)
    requires target >= |code|
    ensures forall i :: 0 <= i < |code| ==> EdgeCount(code[i].term, target) == 0
  {
  }

  lemma HeaderWf(mem: nat, checked: bool)
    ensures Wf(Header(mem, checked), {})
  {
  }

  lemma MoveWf(checked: bool, b: Builder, n: int, open: set<BlockId>)
    requires Wf(b, open) && (checked ==> ABERROR < |b.code| && b.code[ABERROR].phis == [])
    ensures Wf(EmitMove(checked, b, n), open)
  {
    var b' := EmitMove(checked, b, n);
    NoEdgeOut(b.code, |b.code|);
    forall i, k | 0 <= i < |b'.code| && 0 <= k < |b'.code[i].phis|
      ensures PhiMatches(b'.code, i, b'.code[i].phis[k])
    {
      assert i < |b.code| && b'.code[i].phis == b.code[i].phis;
      assert PhiMatches(b.code, i, b.code[i].phis[k]);
    }
  }

  lemma OpenLoopWf(b: Builder, open: set<BlockId>)
    requires Wf(b, open)
    ensures Wf(OpenLoop(b), open + {|b.code|})
  {
    var b' := OpenLoop(b);
    var testbb := |b.code|;
    NoEdgeOut(b.code, testbb);
    forall i, k | 0 <= i < |b'.code| && 0 <= k < |b'.code[i].phis|
      ensures PhiMatches(b'.code, i, b'.code[i].phis[k])
    {
      if i < testbb {
        assert PhiMatches(b.code, i, b.code[i].phis[k]);
      } else {
        forall p: BlockId ensures FromCount(b'.code[i].phis[k].incoming, p) == if p < |b'.code| then EdgeCount(b'.code[p].term, i) else 0 {
          FromCountSingle(Incoming(b.head, b.cur), p);
        }
      }
    }
  }

  lemma CloseLoopTerms(b: Builder, b2: Builder, open: set<BlockId>)
    requires Wf(b, open) && Frame(OpenLoop(b), b2) && Wf(b2, open + {|b.code|})
    ensures var b3 := CloseLoop(b2, b.next, |b.code|, |b.code| + 1);
      && b3.Valid() && b3.cur !in open && b3.cur != END && END < |b3.code|
      && (forall i :: 0 <= i < |b3.code| ==> (b3.code[i].term.Open? <==> i == b3.cur || i in open))
      && (forall i :: 0 <= i < |b3.code| ==> TargetsIn(b3.code[i].term, |b3.code|))
  {
    ClosedLoop(b, b2);
  }

  /** The edges that closing a loop adds. */
  lemma ClosedEdges(b: Builder, b2: Builder, open: set<BlockId>, i: BlockId, p: BlockId)
    requires Wf(b, open) && Frame(OpenLoop(b), b2) && Wf(b2, open + {|b.code|})
    ensures var b3 := CloseLoop(b2, b.next, |b.code|, |b.code| + 1);
      (if p < |b3.code| then EdgeCount(b3.code[p].term, i) else 0)
      == (if p < |b2.code| then EdgeCount(b2.code[p].term, i) else 0)
         + (if p == b2.cur && i == |b.code| then 1 else 0) + (if p == |b.code| && (i == |b2.code| || i == |b.code| + 1) then 1 else 0)
  {
    ClosedLoop(b, b2);
    var b3 := CloseLoop(b2, b.next, |b.code|, |b.code| + 1);
    assert |b.code| in open + {|b.code|};
    if p < |b2.code| && p != b2.cur && p != |b.code| {
      assert b3.code[p] == b2.code[p];
    }
  }

  lemma CloseTestPhi(b: Builder, b2: Builder, open: set<BlockId>, phi: Phi, p: BlockId)
    requires Wf(b, open) && Frame(OpenLoop(b), b2) && Wf(b2, open + {|b.code|})
    requires phi.incoming == [Incoming(b.head, b.cur), Incoming(b2.head, b2.cur)]
    ensures FromCount(phi.incoming, p) == (if p < |b2.code| then EdgeCount(b2.code[p].term, |b.code|) else 0) + if p == b2.cur then 1 else 0
  {
    FromCountPair(Incoming(b.head, b.cur), Incoming(b2.head, b2.cur), p);
    FromCountSingle(Incoming(b.head, b.cur), p);
    assert b2.code[|b.code|] == OpenLoop(b).code[|b.code|];
    assert PhiMatches(b2.code, |b.code|, b2.code[|b.code|].phis[0]);
  }

  lemma CloseLoopPhis(b: Builder, b2: Builder, open: set<BlockId>, i: BlockId, k: nat)
    requires Wf(b, open) && Frame(OpenLoop(b), b2) && Wf(b2, open + {|b.code|})
    requires var b3 := CloseLoop(b2, b.next, |b.code|, |b.code| + 1); i < |b3.code| && k < |b3.code[i].phis|
    ensures var b3 := CloseLoop(b2, b.next, |b.code|, |b.code| + 1); PhiMatches(b3.code, i, b3.code[i].phis[k])
  {
    ClosedLoop(b, b2);
    var b3 := CloseLoop(b2, b.next, |b.code|, |b.code| + 1);
    var phi := b3.code[i].phis[k];
    forall p: BlockId
      ensures FromCount(phi.incoming, p) == if p < |b3.code| then EdgeCount(b3.code[p].term, i) else 0
    {
      ClosedEdges(b, b2, open, i, p);
      if i == |b.code| {
        CloseTestPhi(b, b2, open, phi, p);
      } else if i == |b2.code| {
        NoEdgeOut(b2.code, |b2.code|);
        FromCountSingle(Incoming(b.next, |b.code|), p);
      } else {
        assert b3.code[i].phis == b2.code[i].phis && i != |b.code| + 1;
        assert PhiMatches(b2.code, i, b2.code[i].phis[k]);
      }
    }
  }

  lemma CloseLoopWf(b: Builder, b2: Builder, open: set<BlockId>)
    requires Wf(b, open) && Frame(OpenLoop(b), b2) && Wf(b2, open + {|b.code|})
    ensures Wf(CloseLoop(b2, b.next, |b.code|, |b.code| + 1), open)
  {
    CloseLoopTerms(b, b2, open);
    var b3 := CloseLoop(b2, b.next, |b.code|, |b.code| + 1);
    forall i, k | 0 <= i < |b3.code| && 0 <= k < |b3.code[i].phis|
      ensures PhiMatches(b3.code, i, b3.code[i].phis[k])
    {
      CloseLoopPhis(b, b2, open, i, k);
    }
  }

  /** The error block stays free of PHI nodes. */
  ghost predicate ErrorPlain(checked: bool, code: Code) {
    checked ==> ABERROR < |code| && code[ABERROR].phis == []
  }

  lemma FrameErrorPlain(checked: bool, b: Builder, b': Builder)
    requires Frame(b, b') && ErrorPlain(checked, b.code)
    ensures ErrorPlain(checked, b'.code)
  {
  }

  lemma OpenErrorPlain(checked: bool, b: Builder)
    requires b.Valid() && ErrorPlain(checked, b.code)
    ensures ErrorPlain(checked, OpenLoop(b).code)
  {
  }

  lemma Append3Wf(checked: bool, b: Builder, cmd: Cmd, open: set<BlockId>)
    requires Wf(b, open) && !cmd.Move? && !cmd.Loop?
    ensures Wf(EmitCmd(checked, b, cmd), open)
  {
    var b' := EmitCmd(checked, b, cmd);
    assert forall i :: 0 <= i < |b.code| ==> b'.code[i].term == b.code[i].term && b'.code[i].phis == b.code[i].phis;
    forall i, k | 0 <= i < |b'.code| && 0 <= k < |b'.code[i].phis|
      ensures PhiMatches(b'.code, i, b'.code[i].phis[k])
    {
      assert PhiMatches(b.code, i, b.code[i].phis[k]);
    }
  }

  /** Wf, stated behind this trigger and looked into only where a proof says so. */
  ghost predicate Unseal(look: bool) { look }

  ghost predicate Formed(b: Builder, open: set<BlockId>) {
    b.Valid() && forall look {:trigger Unseal(look)} :: Unseal(look) ==> Wf(b, open)
  }

  lemma MoveFormed(checked: bool, b: Builder, n: int, open: set<BlockId>)
    requires Formed(b, open) && ErrorPlain(checked, b.code)
    ensures Formed(EmitMove(checked, b, n), open)
  {
    assert Unseal(true);
    MoveWf(checked, b, n, open);
  }

  lemma Append3Formed(checked: bool, b: Builder, cmd: Cmd, open: set<BlockId>)
    requires Formed(b, open) && !cmd.Move? && !cmd.Loop?
    ensures Formed(EmitCmd(checked, b, cmd), open)
  {
    assert Unseal(true);
    Append3Wf(checked, b, cmd, open);
  }

  lemma OpenLoopFormed(b: Builder, open: set<BlockId>)
    requires Formed(b, open)
    ensures Formed(OpenLoop(b), open + {|b.code|})
  {
    assert Unseal(true);
    OpenLoopWf(b, open);
  }

  lemma CloseLoopFormed(b: Builder, b2: Builder, open: set<BlockId>)
    requires Formed(b, open) && Frame(OpenLoop(b), b2) && Formed(b2, open + {|b.code|}) && |b.code| < |b2.code|
    ensures Formed(CloseLoop(b2, b.next, |b.code|, |b.code| + 1), open)
  {
    assert Unseal(true);
    CloseLoopWf(b, b2, open);
  }

  lemma EmitLoop(checked: bool, b: Builder, body: seq<Cmd>)
    requires b.Valid()
    ensures |b.code| < |Emit(checked, OpenLoop(b), body).code|
    ensures EmitCmd(checked, b, Loop(body)) == CloseLoop(Emit(checked, OpenLoop(b), body), b.next, |b.code|, |b.code| + 1)
  {
  }

  lemma LoopClosedFormed(checked: bool, b: Builder, body: seq<Cmd>, open: set<BlockId>)
    requires Formed(b, open) && Formed(Emit(checked, OpenLoop(b), body), open + {|b.code|})
    ensures Formed(EmitCmd(checked, b, Loop(body)), open)
  {
    EmitFrame(checked, OpenLoop(b), body);
    CloseLoopFormed(b, Emit(checked, OpenLoop(b), body), open);
    EmitLoop(checked, b, body);
  }

  lemma {:induction false} EmitCmdWf(checked: bool, b: Builder, cmd: Cmd, open: set<BlockId>)
    requires Formed(b, open) && ErrorPlain(checked, b.code)
    ensures Formed(EmitCmd(checked, b, cmd), open)
    decreases cmd, 0
  {
    match cmd
    case Move(n) => MoveFormed(checked, b, n, open);
    case Loop(body) => LoopWf(checked, b, body, open);
    case _ => Append3Formed(checked, b, cmd, open);
  }

  lemma {:induction false} LoopWf(checked: bool, b: Builder, body: seq<Cmd>, open: set<BlockId>)
    requires Formed(b, open) && ErrorPlain(checked, b.code)
    ensures Formed(EmitCmd(checked, b, Loop(body)), open)
    decreases body, 2
  {
    OpenLoopFormed(b, open);
    OpenErrorPlain(checked, b);
    EmitWf(checked, OpenLoop(b), body, open + {|b.code|});
    LoopClosedFormed(checked, b, body, open);
  }

  lemma {:induction false} EmitWf(checked: bool, b: Builder, cmds: seq<Cmd>, open: set<BlockId>)
    requires Formed(b, open) && ErrorPlain(checked, b.code)
    ensures Formed(Emit(checked, b, cmds), open)
    decreases cmds, 1
  {
    if cmds != [] {
      EmitCmdWf(checked, b, cmds[0], open);
      EmitCmdFrame(checked, b, cmds[0]);
      var b1 := EmitCmd(checked, b, cmds[0]);
      FrameErrorPlain(checked, b, b1);
      EmitWf(checked, b1, cmds[1..], open);
    }
  }

  /** Every block of the compiled function is terminated by a jump inside the function or
      a return, and every PHI node has one incoming value per predecessor edge. */
  lemma CompiledWellFormed(mem: nat, checked: bool, cmds: seq<Cmd>)
    ensures var f := Compile(mem, checked, cmds);
      && (forall i :: 0 <= i < |f| ==> !f[i].term.Open? && TargetsIn(f[i].term, |f|))
      && PhisMatch(f)
  {
    var h := Header(mem, checked);
    HeaderWf(mem, checked);
    EmitWf(checked, h, cmds, {});
    assert Unseal(true);
    var b := Emit(checked, h, cmds);
    EmitFrame(checked, h, cmds);
    var f := Compile(mem, checked, cmds);
    assert f[END].phis == [];
    forall i, k | 0 <= i < |f| && 0 <= k < |f[i].phis| ensures PhiMatches(f, i, f[i].phis[k]) {
      assert PhiMatches(b.code, i, b.code[i].phis[k]);
    }
  }

  // ----- Definitions dominate uses ----------------------------------------------------------

  function Uses(i: Inst): set<Reg> {
    match i
    case Malloc(_, _) => {}
    case Memset(p, _) => {p}
    case Gep(_, base, _) => {base}
    case Load(_, p) => {p}
    case Store(src, p) => {src, p}
    case AddI8(_, src, _) => {src}
    case GetCharCall(_) => {}
    case TruncI8(_, src) => {src}
    case SExtI32(_, src) => {src}
    case PutCharCall(src) => {src}
    case ICmpUGE(_, x, y) => {x, y}
    case ICmpULT(_, x, y) => {x, y}
    case OrI1(_, x, y) => {x, y}
    case ICmpEqZero(_, src) => {src}
    case Free(p) => {p}
    case Puts(_) => {}
  }

  function Def(i: Inst): set<Reg> {
    match i
    case Malloc(d, _) => {d}
    case Gep(d, _, _) => {d}
    case Load(d, _) => {d}
    case AddI8(d, _, _) => {d}
    case GetCharCall(d) => {d}
    case TruncI8(d, _) => {d}
    case SExtI32(d, _) => {d}
    case ICmpUGE(d, _, _) => {d}
    case ICmpULT(d, _, _) => {d}
    case OrI1(d, _, _) => {d}
    case ICmpEqZero(d, _) => {d}
    case _ => {}
  }

  function TermUses(t: Term): set<Reg> {
    if t.CondBr? then {t.cond} else {}
  }

  function PhiDefs(phis: seq<Phi>): set<Reg> {
    if phis == [] then {} else PhiDefs(phis[..|phis| - 1]) + {phis[|phis| - 1].dst}
  }

  /** The registers written by the first instructions. */
  function InstDefs(insts: seq<Inst>): set<Reg> {
    if insts == [] then {} else InstDefs(insts[..|insts| - 1]) + Def(insts[|insts| - 1])
  }

  function Defs(b: Block): set<Reg> {
    PhiDefs(b.phis) + InstDefs(b.insts)
  }

  predicate Edge(code: Code, i: BlockId, j: BlockId) {
    i < |code| && j < |code| && EdgeCount(code[i].term, j) > 0
  }

  /** A path of the control-flow graph that starts at the entry. */
  predicate Path(code: Code, p: seq<BlockId>) {
    && |p| > 0 && p[0] == ENTRY && (forall k :: 0 <= k < |p| ==> p[k] < |code|)
    && (forall k :: 0 < k < |p| ==> Edge(code, p[k - 1], p[k]))
  }

  /** Some block of the path before position n writes r. */
  predicate WrittenBefore(code: Code, p: seq<BlockId>, n: nat, r: Reg)
    requires n <= |p| && forall k :: 0 <= k < |p| ==> p[k] < |code|
  {
    exists k :: 0 <= k < n && r in Defs(code[p[k]])
  }

  /** At the end of the path, everything the instructions and the terminator of the last
      block use has been written, and so have the incoming values of the edge just taken. */
  ghost predicate PathDefined(code: Code, p: seq<BlockId>)
    requires Path(code, p)
  {
    var n := |p| - 1;
    var b := code[p[n]];
    && (forall k, r :: 0 <= k < |b.insts| && r in Uses(b.insts[k]) ==>
          r in PhiDefs(b.phis) || r in InstDefs(b.insts[..k]) || WrittenBefore(code, p, n, r))
    && (forall r :: r in TermUses(b.term) ==> r in Defs(b) || WrittenBefore(code, p, n, r))
    && (n > 0 ==> forall k, j :: 0 <= k < |b.phis| && 0 <= j < |b.phis[k].incoming| ==>
          b.phis[k].incoming[j].from == p[n - 1] ==> WrittenBefore(code, p, n, b.phis[k].incoming[j].value))
  }

  ghost predicate DefinitionsDominate(code: Code) {
    forall p :: Path(code, p) ==> PathDefined(code, p)
  }

  // ----- A justification: what has certainly been written when a block is entered ----------

  /** Every instruction uses only what is in start or written by an earlier one. */
  ghost predicate InstsJustified(insts: seq<Inst>, start: set<Reg>) {
    insts == [] ||
    (var last := |insts| - 1;
      Uses(insts[last]) <= start + InstDefs(insts[..last]) && InstsJustified(insts[..last], start))
  }

  /** Whatever is certain on entry to a target has been written when t is reached. */
  ghost predicate TermJustified(t: Term, avail: seq<set<Reg>>, here: set<Reg>) {
    match t
    case Br(x) => x < |avail| && avail[x] <= here
    case CondBr(c, x, y) => c in here && x < |avail| && avail[x] <= here && y < |avail| && avail[y] <= here
    case _ => true
  }

  ghost predicate IncomingJustified(incoming: seq<Incoming>, code: Code, avail: seq<set<Reg>>)
    requires |avail| == |code|
  {
    incoming == [] ||
    (var last := incoming[|incoming| - 1];
      && last.from < |code| && last.value in avail[last.from] + Defs(code[last.from])
      && IncomingJustified(incoming[..|incoming| - 1], code, avail))
  }

  ghost predicate PhisJustified(phis: seq<Phi>, code: Code, avail: seq<set<Reg>>)
    requires |avail| == |code|
  {
    phis == [] ||
    (var last := |phis| - 1;
      IncomingJustified(phis[last].incoming, code, avail) && PhisJustified(phis[..last], code, avail))
  }

  ghost predicate JustifiedAt(code: Code, avail: seq<set<Reg>>, i: BlockId)
    requires |avail| == |code| && i < |code|
  {
    && InstsJustified(code[i].insts, avail[i] + PhiDefs(code[i].phis))
    && TermJustified(code[i].term, avail, avail[i] + Defs(code[i]))
    && PhisJustified(code[i].phis, code, avail)
  }

  ghost predicate Justified(code: Code, avail: seq<set<Reg>>) {
    && |avail| == |code| > 0 && avail[ENTRY] == {}
    && forall i {:trigger JustifiedAt(code, avail, i)} :: 0 <= i < |code| ==> JustifiedAt(code, avail, i)
  }

  // Growing the code keeps incoming values justified.

  ghost predicate Larger(code: Code, avail: seq<set<Reg>>, code': Code, avail': seq<set<Reg>>) {
    && |avail| == |code| <= |code'| == |avail'| && avail <= avail'
    && forall i :: 0 <= i < |code| ==> Defs(code[i]) <= Defs(code'[i])
  }

  lemma {:induction false} IncomingLarger(incoming: seq<Incoming>, code: Code, avail: seq<set<Reg>>, code': Code, avail': seq<set<Reg>>)
    requires Larger(code, avail, code', avail') && IncomingJustified(incoming, code, avail)
    ensures IncomingJustified(incoming, code', avail')
  {
    if incoming != [] {
      IncomingLarger(incoming[..|incoming| - 1], code, avail, code', avail');
    }
  }

  lemma {:induction false} PhisLarger(phis: seq<Phi>, code: Code, avail: seq<set<Reg>>, code': Code, avail': seq<set<Reg>>)
    requires Larger(code, avail, code', avail') && PhisJustified(phis, code, avail)
    ensures PhisJustified(phis, code', avail')
  {
    if phis != [] {
      IncomingLarger(phis[|phis| - 1].incoming, code, avail, code', avail');
      PhisLarger(phis[..|phis| - 1], code, avail, code', avail');
    }
  }

  /** Changing one block. */
  lemma UpdateBlock(code: Code, avail: seq<set<Reg>>, cur: BlockId, b: Block)
    requires Justified(code, avail) && cur < |code| && Defs(code[cur]) <= Defs(b)
    requires JustifiedAt(code[cur := b], avail, cur)
    ensures Justified(code[cur := b], avail)
  {
    var code' := code[cur := b];
    assert Larger(code, avail, code', avail);
    forall i | 0 <= i < |code| ensures JustifiedAt(code', avail, i) {
      if i != cur {
        assert JustifiedAt(code, avail, i);
        PhisLarger(code[i].phis, code, avail, code', avail);
      }
    }
  }

  /** A new block, to which nothing leads yet. */
  lemma AddBlock(code: Code, avail: seq<set<Reg>>, b: Block, a: set<Reg>)
    requires Justified(code, avail) && b.insts == [] && b.term.Open? && PhisJustified(b.phis, code, avail)
    ensures Justified(code + [b], avail + [a])
  {
    var code', avail' := code + [b], avail + [a];
    assert Larger(code, avail, code', avail');
    forall i | 0 <= i < |code'| ensures JustifiedAt(code', avail', i) {
      if i < |code| {
        assert JustifiedAt(code, avail, i);
        PhisLarger(code[i].phis, code, avail, code', avail');
      } else {
        PhisLarger(b.phis, code, avail, code', avail');
      }
    }
  }

  lemma PhisSingle(phi: Phi, code: Code, avail: seq<set<Reg>>)
    requires |avail| == |code| && IncomingJustified(phi.incoming, code, avail)
    ensures PhisJustified([phi], code, avail) && PhiDefs([phi]) == {phi.dst}
  {
    assert [phi][..0] == [];
  }

  lemma IncomingMore(incoming: seq<Incoming>, i: Incoming, code: Code, avail: seq<set<Reg>>)
    requires |avail| == |code| && IncomingJustified(incoming, code, avail)
    requires i.from < |code| && i.value in avail[i.from] + Defs(code[i.from])
    ensures IncomingJustified(incoming + [i], code, avail)
  {
    assert (incoming + [i])[..|incoming|] == incoming;
  }

  // ----- Justified code has definitions that dominate uses -------------------------------------

  lemma {:induction false} InstJustified(insts: seq<Inst>, start: set<Reg>, k: nat)
    requires InstsJustified(insts, start) && k < |insts|
    ensures Uses(insts[k]) <= start + InstDefs(insts[..k])
  {
    var last := |insts| - 1;
    if k < last {
      InstJustified(insts[..last], start, k);
      assert insts[..last][..k] == insts[..k];
    }
  }

  lemma {:induction false} IncomingGet(incoming: seq<Incoming>, code: Code, avail: seq<set<Reg>>, j: nat)
    requires |avail| == |code| && IncomingJustified(incoming, code, avail) && j < |incoming|
    ensures incoming[j].from < |code| && incoming[j].value in avail[incoming[j].from] + Defs(code[incoming[j].from])
  {
    if j < |incoming| - 1 {
      IncomingGet(incoming[..|incoming| - 1], code, avail, j);
    }
  }

  lemma {:induction false} PhisGet(phis: seq<Phi>, code: Code, avail: seq<set<Reg>>, k: nat)
    requires |avail| == |code| && PhisJustified(phis, code, avail) && k < |phis|
    ensures IncomingJustified(phis[k].incoming, code, avail)
  {
    if k < |phis| - 1 {
      PhisGet(phis[..|phis| - 1], code, avail, k);
    }
  }

  lemma {:induction false} AvailWritten(code: Code, avail: seq<set<Reg>>, p: seq<BlockId>, n: nat, r: Reg)
    requires Justified(code, avail) && Path(code, p) && n < |p| && r in avail[p[n]]
    ensures WrittenBefore(code, p, n, r)
  {
    if n > 0 {
      assert Edge(code, p[n - 1], p[n]);
      assert JustifiedAt(code, avail, p[n - 1]);
      if r in avail[p[n - 1]] {
        AvailWritten(code, avail, p, n - 1, r);
      }
    }
  }

  lemma JustifiedDominates(code: Code, avail: seq<set<Reg>>)
    requires Justified(code, avail)
    ensures DefinitionsDominate(code)
  {
    forall p | Path(code, p) ensures PathDefined(code, p) {
      var n := |p| - 1;
      var b := code[p[n]];
      forall r | r in avail[p[n]] ensures WrittenBefore(code, p, n, r) {
        AvailWritten(code, avail, p, n, r);
      }
      assert JustifiedAt(code, avail, p[n]);
      forall k | 0 <= k < |b.insts|
        ensures Uses(b.insts[k]) <= avail[p[n]] + PhiDefs(b.phis) + InstDefs(b.insts[..k])
      {
        InstJustified(b.insts, avail[p[n]] + PhiDefs(b.phis), k);
      }
      if n > 0 {
        forall k, j | 0 <= k < |b.phis| && 0 <= j < |b.phis[k].incoming| && b.phis[k].incoming[j].from == p[n - 1]
          ensures WrittenBefore(code, p, n, b.phis[k].incoming[j].value)
        {
          PhisGet(b.phis, code, avail, k);
          IncomingGet(b.phis[k].incoming, code, avail, j);
          var r := b.phis[k].incoming[j].value;
          if r in avail[p[n - 1]] {
            AvailWritten(code, avail, p, n - 1, r);
          }
        }
      }
    }
  }

  // ----- The builder keeps all uses justified -------------------------------------------------

  /** What has certainly been written at the builder's position. */
  ghost function Here(b: Builder, avail: seq<set<Reg>>): set<Reg>
    requires b.Valid() && |avail| == |b.code|
  {
    avail[b.cur] + Defs(b.code[b.cur])
  }

  ghost predicate Ready(checked: bool, b: Builder, avail: seq<set<Reg>>) {
    && b.Valid() && Justified(b.code, avail) && END < |b.code|
    && b.head in Here(b, avail) && ARR in Here(b, avail) && (checked ==> ARRMAX in Here(b, avail))
    && avail[END] == {ARR} && (checked ==> ABERROR < |b.code| && avail[ABERROR] == {ARR})
  }

  /** The new set of justified registers only grows, at the builder's position too. */
  ghost predicate AvailGrows(b: Builder, avail: seq<set<Reg>>, b': Builder, avail': seq<set<Reg>>) {
    && b.Valid() && b'.Valid() && |avail| == |b.code| && |avail'| == |b'.code|
    && avail <= avail' && Here(b, avail) <= Here(b', avail')
  }

  lemma InstsMore(insts: seq<Inst>, i: Inst, start: set<Reg>)
    requires InstsJustified(insts, start) && Uses(i) <= start + InstDefs(insts)
    ensures InstsJustified(insts + [i], start) && InstDefs(insts + [i]) == InstDefs(insts) + Def(i)
  {
    assert (insts + [i])[..|insts|] == insts;
  }

  lemma AppendJustified(code: Code, avail: seq<set<Reg>>, cur: BlockId, i: Inst)
    requires Justified(code, avail) && cur < |code| && code[cur].term.Open?
    requires Uses(i) <= avail[cur] + Defs(code[cur])
    ensures var code' := code[cur := code[cur].(insts := code[cur].insts + [i])];
      Justified(code', avail) && Defs(code'[cur]) == Defs(code[cur]) + Def(i)
  {
    var b := code[cur].(insts := code[cur].insts + [i]);
    assert JustifiedAt(code, avail, cur);
    InstsMore(code[cur].insts, i, avail[cur] + PhiDefs(b.phis));
    var code' := code[cur := b];
    assert Larger(code, avail, code', avail);
    PhisLarger(b.phis, code, avail, code', avail);
    UpdateBlock(code, avail, cur, b);
  }

  lemma TerminateJustified(code: Code, avail: seq<set<Reg>>, cur: BlockId, t: Term)
    requires Justified(code, avail) && cur < |code| && TermJustified(t, avail, avail[cur] + Defs(code[cur]))
    ensures Justified(code[cur := code[cur].(term := t)], avail)
  {
    var b := code[cur].(term := t);
    assert JustifiedAt(code, avail, cur);
    var code' := code[cur := b];
    assert Larger(code, avail, code', avail);
    PhisLarger(b.phis, code, avail, code', avail);
    UpdateBlock(code, avail, cur, b);
  }

  /** One more incoming value for a PHI node, justified by the block it comes from. */
  lemma IncomingAdded(code: Code, avail: seq<set<Reg>>, block: BlockId, phi: Phi, i: Incoming)
    requires Justified(code, avail) && block < |code| && code[block].phis == [phi]
    requires i.from < |code| && i.value in avail[i.from] + Defs(code[i.from])
    ensures var code' := code[block := code[block].(phis := [phi.(incoming := phi.incoming + [i])])];
      Justified(code', avail) && Defs(code'[block]) == Defs(code[block])
  {
    var phi' := phi.(incoming := phi.incoming + [i]);
    var b := code[block].(phis := [phi']);
    assert JustifiedAt(code, avail, block);
    PhisGet([phi], code, avail, 0);
    IncomingMore(phi.incoming, i, code, avail);
    PhisSingle(phi, code, avail);
    PhisSingle(phi', code, avail);
    var code' := code[block := b];
    assert Larger(code, avail, code', avail);
    PhisLarger([phi'], code, avail, code', avail);
    UpdateBlock(code, avail, block, b);
  }

  lemma AppendReady(checked: bool, b: Builder, avail: seq<set<Reg>>, i: Inst)
    requires Ready(checked, b, avail) && Uses(i) <= Here(b, avail)
    ensures Ready(checked, b.Append(i), avail) && Here(b.Append(i), avail) == Here(b, avail) + Def(i)
  {
    AppendJustified(b.code, avail, b.cur, i);
  }

  lemma Append3Ready(checked: bool, b: Builder, avail: seq<set<Reg>>, i: Inst, j: Inst, k: Inst)
    requires Ready(checked, b, avail)
    requires Uses(i) <= Here(b, avail) && Uses(j) <= Here(b, avail) + Def(i) && Uses(k) <= Here(b, avail) + Def(i) + Def(j)
    ensures Ready(checked, Append3(b, i, j, k), avail) && AvailGrows(b, avail, Append3(b, i, j, k), avail)
  {
    AppendReady(checked, b, avail, i);
    AppendReady(checked, b.Append(i), avail, j);
    AppendReady(checked, b.Append(i).Append(j), avail, k);
  }

  lemma MoveReady(checked: bool, b: Builder, avail: seq<set<Reg>>, n: int) returns (avail': seq<set<Reg>>)
    requires Ready(checked, b, avail)
    ensures var b' := EmitMove(checked, b, n); Ready(checked, b', avail') && AvailGrows(b, avail, b', avail')
  {
    AppendReady(checked, b, avail, Gep(b.next, b.head, n));
    var b1 := b.Append(Gep(b.next, b.head, n)).(head := b.next, next := b.next + 1);
    avail' := avail;
    if checked {
      avail' := CheckReady(b1, avail);
    }
  }

  lemma CheckReady(b1: Builder, avail: seq<set<Reg>>) returns (avail': seq<set<Reg>>)
    requires Ready(true, b1, avail)
    ensures var t := b1.next;
      var b4 := b1.Append(ICmpUGE(t, b1.head, ARRMAX)).Append(ICmpULT(t + 1, b1.head, ARR)).Append(OrI1(t + 2, t, t + 1));
      var b' := Builder(b4.Terminate(CondBr(t + 2, ABERROR, |b4.code|)) + [Block([], [], Open)], |b4.code|, b1.head, t + 3);
      Ready(true, b', avail') && AvailGrows(b1, avail, b', avail')
  {
    var t := b1.next;
    AppendReady(true, b1, avail, ICmpUGE(t, b1.head, ARRMAX));
    var b2 := b1.Append(ICmpUGE(t, b1.head, ARRMAX));
    AppendReady(true, b2, avail, ICmpULT(t + 1, b1.head, ARR));
    var b3 := b2.Append(ICmpULT(t + 1, b1.head, ARR));
    AppendReady(true, b3, avail, OrI1(t + 2, t, t + 1));
    avail' := NextReady(b3.Append(OrI1(t + 2, t, t + 1)), avail, t + 2, t + 3);
  }

  /** Control goes on in a new block only if the register c is false. */
  lemma NextReady(b4: Builder, avail: seq<set<Reg>>, c: Reg, next: Reg) returns (avail': seq<set<Reg>>)
    requires Ready(true, b4, avail) && c in Here(b4, avail)
    ensures var b' := Builder(b4.Terminate(CondBr(c, ABERROR, |b4.code|)) + [Block([], [], Open)], |b4.code|, b4.head, next);
      Ready(true, b', avail') && AvailGrows(b4, avail, b', avail')
  {
    var a := Here(b4, avail);
    avail' := avail + [a];
    AddBlock(b4.code, avail, Block([], [], Open), a);
    var code5 := b4.code + [Block([], [], Open)];
    var term := CondBr(c, ABERROR, |b4.code|);
    TerminateJustified(code5, avail', b4.cur, term);
    assert b4.Terminate(term) + [Block([], [], Open)] == code5[b4.cur := code5[b4.cur].(term := term)];
  }

  lemma OpenReady(checked: bool, b: Builder, avail: seq<set<Reg>>) returns (avail': seq<set<Reg>>)
    requires Ready(checked, b, avail)
    ensures var b' := OpenLoop(b);
      && Ready(checked, b', avail') && AvailGrows(b, avail, b', avail')
      && avail'[|b.code|] == Here(b, avail) && avail'[|b.code| + 1] == Here(b, avail) + {b.next}
  {
    var testbb := |b.code|;
    var a := Here(b, avail);
    var phi := Phi(b.next, [Incoming(b.head, b.cur)]);
    IncomingMore([], Incoming(b.head, b.cur), b.code, avail);
    assert [] + [Incoming(b.head, b.cur)] == phi.incoming;
    PhisSingle(phi, b.code, avail);
    AddBlock(b.code, avail, Block([phi], [], Open), a);
    var code1 := b.code + [Block([phi], [], Open)];
    var avail1 := avail + [a];
    AddBlock(code1, avail1, Block([], [], Open), a + {b.next});
    var code2 := code1 + [Block([], [], Open)];
    avail' := avail1 + [a + {b.next}];
    TerminateJustified(code2, avail', b.cur, Br(testbb));
    assert OpenLoop(b).code == code2[b.cur := code2[b.cur].(term := Br(testbb))];
  }

  /** The test block of a loop, once the way back is known. */
  lemma TestReady(code: Code, avail: seq<set<Reg>>, testbb: BlockId, phi: Phi, back: Incoming, t: Reg) returns (code': Code)
    requires Justified(code, avail) && testbb < |code| && code[testbb] == Block([phi], [], Open)
    requires back.from < |code| && back.value in avail[back.from] + Defs(code[back.from])
    ensures code' == code[testbb := Block([phi.(incoming := phi.incoming + [back])], [Load(t, phi.dst), ICmpEqZero(t + 1, t)], Open)]
    ensures Justified(code', avail) && Defs(code'[testbb]) == {phi.dst, t, t + 1}
  {
    var phi' := phi.(incoming := phi.incoming + [back]);
    IncomingAdded(code, avail, testbb, phi, back);
    var code1 := code[testbb := Block([phi'], [], Open)];
    code' := TestInsts(code1, avail, testbb, phi', t);
  }

  /** The two instructions of a test block. */
  lemma TestInsts(code: Code, avail: seq<set<Reg>>, testbb: BlockId, phi: Phi, t: Reg) returns (code': Code)
    requires Justified(code, avail) && testbb < |code| && code[testbb] == Block([phi], [], Open)
    ensures code' == code[testbb := Block([phi], [Load(t, phi.dst), ICmpEqZero(t + 1, t)], Open)]
    ensures Justified(code', avail) && Defs(code'[testbb]) == {phi.dst, t, t + 1}
  {
    assert [phi][..0] == [] && PhiDefs([phi]) == {phi.dst};
    AppendJustified(code, avail, testbb, Load(t, phi.dst));
    var code1 := code[testbb := Block([phi], [] + [Load(t, phi.dst)], Open)];
    AppendJustified(code1, avail, testbb, ICmpEqZero(t + 1, t));
    code' := code1[testbb := Block([phi], [] + [Load(t, phi.dst)] + [ICmpEqZero(t + 1, t)], Open)];
    assert [] + [Load(t, phi.dst)] + [ICmpEqZero(t + 1, t)] == [Load(t, phi.dst), ICmpEqZero(t + 1, t)];
  }

  /** The exit block and the two terminators of a loop whose test block is ready. */
  lemma ExitReady(code3: Code, avail2: seq<set<Reg>>, testbb: BlockId, end: BlockId, phi: Reg, t: Reg) returns (avail': seq<set<Reg>>, code6: Code)
    requires Justified(code3, avail2) && testbb + 1 < |code3| && end < |code3| && end != testbb
    requires Defs(code3[testbb]) == {phi, t, t + 1}
    requires avail2[testbb + 1] <= avail2[testbb] + {phi} && avail2[testbb] <= avail2[end] + Defs(code3[end])
    ensures avail' == avail2 + [avail2[testbb] + {phi, t, t + 1}]
    ensures var exit := Block([Phi(t + 2, [Incoming(phi, testbb)])], [], Open);
      code6 == (code3 + [exit])[testbb := code3[testbb].(term := CondBr(t + 1, |code3|, testbb + 1))][end := code3[end].(term := Br(testbb))]
    ensures Justified(code6, avail') && Defs(code6[|code3|]) == {t + 2}
  {
    var exit := Phi(t + 2, [Incoming(phi, testbb)]);
    IncomingMore([], Incoming(phi, testbb), code3, avail2);
    assert [] + [Incoming(phi, testbb)] == exit.incoming;
    PhisSingle(exit, code3, avail2);
    avail' := avail2 + [avail2[testbb] + {phi, t, t + 1}];
    AddBlock(code3, avail2, Block([exit], [], Open), avail2[testbb] + {phi, t, t + 1});
    var code4 := code3 + [Block([exit], [], Open)];
    TerminateJustified(code4, avail', testbb, CondBr(t + 1, |code3|, testbb + 1));
    var code5 := code4[testbb := code4[testbb].(term := CondBr(t + 1, |code3|, testbb + 1))];
    TerminateJustified(code5, avail', end, Br(testbb));
    code6 := code5[end := code5[end].(term := Br(testbb))];
  }

  /** While the body is emitted, the test block of a loop stays as it is. */
  lemma OpenedTest(checked: bool, b: Builder, avail: seq<set<Reg>>, b2: Builder, phi: Phi)
    requires Ready(checked, b, avail) && Frame(OpenLoop(b), b2) && b2.Valid() && phi == Phi(b.next, [Incoming(b.head, b.cur)])
    ensures |b.code| + 1 < |b2.code| && b2.code[|b.code|] == Block([phi], [], Open) && b2.cur != |b.code|
  {
    assert b2.code[|b.code|] == OpenLoop(b).code[|b.code|] == Block([phi], [], Open);
  }

  /** The code of a closed loop, and what is available in its exit block. */
  lemma CloseJustified(checked: bool, b: Builder, avail: seq<set<Reg>>, b2: Builder, avail2: seq<set<Reg>>)
    returns (avail': seq<set<Reg>>)
    requires Ready(checked, b, avail) && Frame(OpenLoop(b), b2) && Ready(checked, b2, avail2)
    requires avail <= avail2 && avail2[|b.code|] == Here(b, avail) && avail2[|b.code| + 1] == Here(b, avail) + {b.next}
    requires Here(b, avail) <= Here(b2, avail2)
    ensures |b.code| + 1 < |b2.code| && b2.cur != |b.code|
    ensures var code := CloseLoop(b2, b.next, |b.code|, |b.code| + 1).code;
      && |code| == |b2.code| + 1 && Justified(code, avail') && Defs(code[|b2.code|]) == {b2.next + 2}
    ensures avail' == avail2 + [Here(b, avail) + {b.next, b2.next, b2.next + 1}]
  {
    var testbb := |b.code|;
    var phi := Phi(b.next, [Incoming(b.head, b.cur)]);
    OpenedTest(checked, b, avail, b2, phi);
    var code3 := TestReady(b2.code, avail2, testbb, phi, Incoming(b2.head, b2.cur), b2.next);
    var code6;
    avail', code6 := ExitReady(code3, avail2, testbb, b2.cur, b.next, b2.next);
    ClosedShape(b, b2, code6);
  }

  lemma CloseReady(checked: bool, b: Builder, avail: seq<set<Reg>>, b2: Builder, avail2: seq<set<Reg>>)
    returns (avail': seq<set<Reg>>)
    requires Ready(checked, b, avail) && Frame(OpenLoop(b), b2) && Ready(checked, b2, avail2)
    requires avail <= avail2 && avail2[|b.code|] == Here(b, avail) && avail2[|b.code| + 1] == Here(b, avail) + {b.next}
    requires Here(b, avail) <= Here(b2, avail2)
    ensures var b' := CloseLoop(b2, b.next, |b.code|, |b.code| + 1);
      Ready(checked, b', avail') && AvailGrows(b, avail, b', avail')
  {
    avail' := CloseJustified(checked, b, avail, b2, avail2);
    ClosedBuilder(b2, b.next, |b.code|);
    ReadyAfter(checked, b, avail, CloseLoop(b2, b.next, |b.code|, |b.code| + 1), avail');
  }

  lemma ClosedBuilder(b2: Builder, phi: Reg, testbb: BlockId)
    requires b2.Valid() && testbb + 1 < |b2.code| && b2.cur != testbb
    ensures var b' := CloseLoop(b2, phi, testbb, testbb + 1);
      b'.Valid() && b'.cur == |b2.code| && b'.head == b2.next + 2 && |b'.code| == |b2.code| + 1
  {
  }

  lemma ReadyAfter(checked: bool, b: Builder, avail: seq<set<Reg>>, b': Builder, avail': seq<set<Reg>>)
    requires Ready(checked, b, avail) && b'.Valid() && Justified(b'.code, avail') && avail <= avail'
    requires b'.head in Here(b', avail') && Here(b, avail) <= Here(b', avail')
    ensures Ready(checked, b', avail') && AvailGrows(b, avail, b', avail')
  {
  }

  lemma ClosedShape(b: Builder, b2: Builder, code: Code)
    requires b.Valid() && b2.Valid() && Frame(OpenLoop(b), b2) && |code| == |b2.code| + 1 && b2.cur != |b.code|
    requires code[|b.code|] == Block([Phi(b.next, [Incoming(b.head, b.cur)] + [Incoming(b2.head, b2.cur)])],
      [Load(b2.next, b.next), ICmpEqZero(b2.next + 1, b2.next)], CondBr(b2.next + 1, |b2.code|, |b.code| + 1))
    requires code[b2.cur] == b2.code[b2.cur].(term := Br(|b.code|))
    requires code[|b2.code|] == Block([Phi(b2.next + 2, [Incoming(b.next, |b.code|)])], [], Open)
    requires forall i :: 0 <= i < |b2.code| && i != b2.cur && i != |b.code| ==> code[i] == b2.code[i]
    ensures CloseLoop(b2, b.next, |b.code|, |b.code| + 1).code == code
  {
    ClosedLoop(b, b2);
    assert [Incoming(b.head, b.cur)] + [Incoming(b2.head, b2.cur)] == [Incoming(b.head, b.cur), Incoming(b2.head, b2.cur)];
  }

  lemma {:induction false} EmitCmdReady(checked: bool, b: Builder, avail: seq<set<Reg>>, cmd: Cmd) returns (avail': seq<set<Reg>>)
    requires Ready(checked, b, avail)
    ensures var b' := EmitCmd(checked, b, cmd); Ready(checked, b', avail') && AvailGrows(b, avail, b', avail')
    decreases cmd, 0
  {
    match cmd
    case Move(n) => avail' := MoveReady(checked, b, avail, n);
    case Loop(body) => avail' := LoopAvail(checked, b, avail, body);
    case _ =>
      avail' := avail;
      StraightReady(checked, b, avail, cmd);
  }

  lemma StraightReady(checked: bool, b: Builder, avail: seq<set<Reg>>, cmd: Cmd)
    requires Ready(checked, b, avail) && !cmd.Move? && !cmd.Loop?
    ensures var b' := EmitCmd(checked, b, cmd); Ready(checked, b', avail) && AvailGrows(b, avail, b', avail)
  {
    match cmd
    case Change(n) => ChangeReady(checked, b, avail, n);
    case Read => ReadReady(checked, b, avail);
    case Write => WriteReady(checked, b, avail);
  }

  lemma ChangeReady(checked: bool, b: Builder, avail: seq<set<Reg>>, n: int)
    requires Ready(checked, b, avail)
    ensures var b' := Append3(b, Load(b.next, b.head), AddI8(b.next + 1, b.next, n), Store(b.next + 1, b.head));
      Ready(checked, b', avail) && AvailGrows(b, avail, b', avail)
  {
    Append3Ready(checked, b, avail, Load(b.next, b.head), AddI8(b.next + 1, b.next, n), Store(b.next + 1, b.head));
  }

  lemma ReadReady(checked: bool, b: Builder, avail: seq<set<Reg>>)
    requires Ready(checked, b, avail)
    ensures var b' := Append3(b, GetCharCall(b.next), TruncI8(b.next + 1, b.next), Store(b.next + 1, b.head));
      Ready(checked, b', avail) && AvailGrows(b, avail, b', avail)
  {
    Append3Ready(checked, b, avail, GetCharCall(b.next), TruncI8(b.next + 1, b.next), Store(b.next + 1, b.head));
  }

  lemma WriteReady(checked: bool, b: Builder, avail: seq<set<Reg>>)
    requires Ready(checked, b, avail)
    ensures var b' := Append3(b, Load(b.next, b.head), SExtI32(b.next + 1, b.next), PutCharCall(b.next + 1));
      Ready(checked, b', avail) && AvailGrows(b, avail, b', avail)
  {
    Append3Ready(checked, b, avail, Load(b.next, b.head), SExtI32(b.next + 1, b.next), PutCharCall(b.next + 1));
  }

  lemma {:induction false} LoopAvail(checked: bool, b: Builder, avail: seq<set<Reg>>, body: seq<Cmd>) returns (avail': seq<set<Reg>>)
    requires Ready(checked, b, avail)
    ensures var b' := EmitCmd(checked, b, Loop(body)); Ready(checked, b', avail') && AvailGrows(b, avail, b', avail')
    decreases body, 3
  {
    var avail2 := LoopBodyAvail(checked, b, avail, body);
    EmitFrame(checked, OpenLoop(b), body);
    avail' := CloseReady(checked, b, avail, Emit(checked, OpenLoop(b), body), avail2);
  }

  lemma {:induction false} LoopBodyAvail(checked: bool, b: Builder, avail: seq<set<Reg>>, body: seq<Cmd>) returns (avail2: seq<set<Reg>>)
    requires Ready(checked, b, avail)
    ensures var b2 := Emit(checked, OpenLoop(b), body);
      && Ready(checked, b2, avail2) && avail <= avail2 && Here(b, avail) <= Here(b2, avail2)
      && avail2[|b.code|] == Here(b, avail) && avail2[|b.code| + 1] == Here(b, avail) + {b.next}
    decreases body, 2
  {
    var avail1 := OpenReady(checked, b, avail);
    avail2 := EmitReady(checked, OpenLoop(b), avail1, body);
  }

  lemma {:induction false} EmitReady(checked: bool, b: Builder, avail: seq<set<Reg>>, cmds: seq<Cmd>) returns (avail': seq<set<Reg>>)
    requires Ready(checked, b, avail)
    ensures var b' := Emit(checked, b, cmds); Ready(checked, b', avail') && AvailGrows(b, avail, b', avail')
    decreases cmds, 1
  {
    if cmds == [] {
      avail' := avail;
    } else {
      var avail1 := EmitCmdReady(checked, b, avail, cmds[0]);
      avail' := EmitReady(checked, EmitCmd(checked, b, cmds[0]), avail1, cmds[1..]);
    }
  }

  lemma HeaderReady(mem: nat, checked: bool) returns (avail: seq<set<Reg>>)
    ensures Ready(checked, Header(mem, checked), avail)
  {
    var h := Header(mem, checked);
    avail := if checked then [{}, {ARR}, {ARR}] else [{}, {ARR}];
    EntryInsts(mem, checked);
    InstsMore([], Free(ARR), {ARR});
    assert [] + [Free(ARR)] == h.code[END].insts;
    if checked {
      InstsMore([], Puts(OFF_TAPE), {ARR});
      assert [] + [Puts(OFF_TAPE)] == h.code[ABERROR].insts;
      assert JustifiedAt(h.code, avail, 2);
    }
    assert {} + PhiDefs([]) == {} && {ARR} + PhiDefs([]) == {ARR};
    assert JustifiedAt(h.code, avail, 0) && JustifiedAt(h.code, avail, 1);
  }

  lemma EntryInsts(mem: nat, checked: bool)
    ensures var insts := Header(mem, checked).code[ENTRY].insts;
      InstsJustified(insts, {}) && InstDefs(insts) == if checked then {ARR, ARRMAX, 2} else {ARR, 2}
  {
    var i, j, k, l := Malloc(ARR, mem), Memset(ARR, mem), Gep(ARRMAX, ARR, mem), Gep(2, ARR, mem / 2);
    InstsMore([], i, {});
    InstsMore([] + [i], j, {});
    InstsMore([] + [i] + [j], k, {});
    InstsMore([] + [i] + [j], l, {});
    InstsMore([] + [i] + [j] + [k], l, {});
    assert [] + [i] + [j] + [k] + [l] == [i, j] + [k] + [l];
    assert [] + [i] + [j] + [l] == [i, j] + [] + [l];
  }

  /** In the compiled function no register is used, on any path, before it has been
      written; in particular the head pointer, which loops pass through PHI nodes. */
  lemma CompiledDefinitionsDominate(mem: nat, checked: bool, cmds: seq<Cmd>)
    ensures DefinitionsDominate(Compile(mem, checked, cmds))
  {
    var h := Header(mem, checked);
    var avail := HeaderReady(mem, checked);
    var avail' := EmitReady(checked, h, avail, cmds);
    var b := Emit(checked, h, cmds);
    TerminateJustified(b.code, avail', b.cur, Br(END));
    JustifiedDominates(Compile(mem, checked, cmds), avail');
  }
}
