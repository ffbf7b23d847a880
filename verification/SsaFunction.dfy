/** Functions in SSA form: basic blocks with PHI nodes, their meaning, and what makes
    them well-formed. */
module SsaFunction {
  import opened Wrappers

  type Reg = nat
  type Label = nat

  datatype Value = Const(n: int) | Use(r: Reg) | Undef

  datatype Incoming = Incoming(value: Value, from: Label)

  datatype Phi = Phi(dst: Reg, incoming: seq<Incoming>)

  /** Any instruction: an operation on values, which may touch memory and the outside. */
  datatype Inst = Inst(dst: Reg, op: nat, args: seq<Value>)

  /** Erased: the terminator of a block that is being deleted. */
  datatype Kind = Jump | CondJump(cond: Value) | SwitchOn(subject: Value, cases: seq<int>)
                | Return(result: Value) | Unreachable | Erased

  datatype Term = Term(kind: Kind, succs: seq<Label>)

  datatype Block = Block(phis: seq<Phi>, insts: seq<Inst>, term: Term)

  datatype Func = Func(entry: Label, params: set<Reg>, blocks: map<Label, Block>)

  // ----- Meaning ------------------------------------------------------------------------

  type Memory = map<int, int>

  /** What an operation does: produce a value and change memory, or end the program;
      either way it may emit something observable. */
  datatype Effect = Next(value: int, mem: Memory, emits: seq<int>) | Ends(emits: seq<int>)

  /** The meaning of the operations, and the value an undefined operand is read as. */
  datatype Machine = Machine(exec: (nat, seq<int>, Memory) -> Effect, undef: int)

  type Regs = map<Reg, int>

  datatype Config =
    | At(block: Label, prev: Option<Label>, regs: Regs, mem: Memory, out: seq<int>)
    | Returned(value: int, mem: Memory, out: seq<int>)
    | Ended(out: seq<int>)

  function Eval(m: Machine, regs: Regs, v: Value): int {
    match v
    case Const(n) => n
    case Use(r) => if r in regs then regs[r] else m.undef
    case Undef => m.undef
  }

  function EvalAll(m: Machine, regs: Regs, vs: seq<Value>): (r: seq<int>)
    ensures |r| == |vs|
  {
    if vs == [] then [] else [Eval(m, regs, vs[0])] + EvalAll(m, regs, vs[1..])
  }

  /** The value a PHI node takes when control comes from a block. */
  function ValueFrom(incoming: seq<Incoming>, from: Option<Label>): Value {
    if incoming == [] then Undef
    else if from == Some(incoming[0].from) then incoming[0].value
    else ValueFrom(incoming[1..], from)
  }

  /** All PHI nodes of a block read the registers as they were before any of them is written. */
  function EvalPhis(m: Machine, phis: seq<Phi>, from: Option<Label>, regs: Regs): Regs {
    if phis == [] then regs
    else
      var last := phis[|phis| - 1];
      EvalPhis(m, phis[..|phis| - 1], from, regs)[last.dst := Eval(m, regs, ValueFrom(last.incoming, from))]
  }

  /** Where a block's instructions lead: to its terminator, or to the end of the program. */
  datatype Flow = Flow(regs: Regs, mem: Memory, out: seq<int>) | Exit(out: seq<int>)

  function ExecAll(m: Machine, insts: seq<Inst>, f: Flow): Flow {
    if insts == [] || f.Exit? then f
    else
      var i := insts[0];
      ExecAll(m, insts[1..], match m.exec(i.op, EvalAll(m, f.regs, i.args), f.mem)
        case Next(v, mem, emits) => Flow(f.regs[i.dst := v], mem, f.out + emits)
        case Ends(emits) => Exit(f.out + emits))
  }

  /** The successor a terminator picks; an i1 condition is its lowest bit. */
  function Target(m: Machine, t: Term, regs: Regs): Option<Label> {
    match t.kind
    case Jump => if |t.succs| >= 1 then Some(t.succs[0]) else None
    case CondJump(c) => if |t.succs| >= 2 then Some(t.succs[if Eval(m, regs, c) % 2 == 1 then 0 else 1]) else None
    case SwitchOn(v, cases) => CaseTarget(Eval(m, regs, v), cases, t.succs)
    case _ => None
  }

  /** The default successor comes first, then one for each case. */
  function CaseTarget(n: int, cases: seq<int>, succs: seq<Label>): Option<Label> {
    if succs == [] then None
    else if cases == [] || |succs| == 1 then Some(succs[0])
    else if cases[|cases| - 1] == n then Some(succs[|succs| - 1])
    else CaseTarget(n, cases[..|cases| - 1], succs[..|succs| - 1])
  }

  function Leave(m: Machine, block: Label, t: Term, f: Flow): Config {
    if f.Exit? then Ended(f.out)
    else if t.kind.Return? then Returned(Eval(m, f.regs, t.kind.result), f.mem, f.out)
    else match Target(m, t, f.regs)
      case Some(l) => At(l, Some(block), f.regs, f.mem, f.out)
      case None => Ended(f.out)
  }

  /** What happens in a block: its PHI nodes, then its instructions. */
  function Body(m: Machine, b: Block, c: Config): Flow
    requires c.At?
  {
    ExecAll(m, b.insts, Flow(EvalPhis(m, b.phis, c.prev, c.regs), c.mem, c.out))
  }

  /** One whole block. */
  function Step(m: Machine, f: Func, c: Config): Config {
    if !c.At? then c
    else if c.block !in f.blocks then Ended(c.out)
    else Leave(m, c.block, f.blocks[c.block].term, Body(m, f.blocks[c.block], c))
  }

  function Run(m: Machine, f: Func, n: nat, c: Config): Config {
    if n == 0 then c else Step(m, f, Run(m, f, n - 1, c))
  }

  function Start(f: Func, regs: Regs, mem: Memory): Config {
    At(f.entry, None, regs, mem, [])
  }

  // ----- Observable behaviour --------------------------------------------------------------

  /** What b shows at least everything that a shows: its output so far, and its result if it is over. */
  predicate Shows(a: Config, b: Config) {
    if a.At? then a.out <= b.out else a == b
  }

  ghost predicate ShownBy(m: Machine, f: Func, g: Func, regs: Regs, mem: Memory, n: nat) {
    exists k: nat :: Shows(Run(m, f, n, Start(f, regs, mem)), Run(m, g, k, Start(g, regs, mem)))
  }

  /** Whatever a run of f shows, after any number of blocks, a run of g shows too. */
  ghost predicate Refines(f: Func, g: Func) {
    forall m, regs: Regs, mem, n: nat {:trigger ShownBy(m, f, g, regs, mem, n)} ::
      regs.Keys == f.params ==> ShownBy(m, f, g, regs, mem, n)
  }

  /** The same observable behaviour, on every machine, with every argument and memory:
      the same result if there is one, the same output if there is none. */
  ghost predicate Equivalent(f: Func, g: Func) {
    f.params == g.params && Refines(f, g) && Refines(g, f)
  }

  lemma RefinesTrans(f: Func, g: Func, h: Func)
    requires f.params == g.params && Refines(f, g) && Refines(g, h)
    ensures Refines(f, h)
  {
    forall m, regs: Regs, mem, n: nat | regs.Keys == f.params ensures ShownBy(m, f, h, regs, mem, n) {
      assert ShownBy(m, f, g, regs, mem, n);
      var k: nat :| Shows(Run(m, f, n, Start(f, regs, mem)), Run(m, g, k, Start(g, regs, mem)));
      assert ShownBy(m, g, h, regs, mem, k);
      var j: nat :| Shows(Run(m, g, k, Start(g, regs, mem)), Run(m, h, j, Start(h, regs, mem)));
      assert Shows(Run(m, f, n, Start(f, regs, mem)), Run(m, h, j, Start(h, regs, mem)));
    }
  }

  lemma EquivalentTrans(f: Func, g: Func, h: Func)
    requires Equivalent(f, g) && Equivalent(g, h)
    ensures Equivalent(f, h)
  {
    RefinesTrans(f, g, h);
    RefinesTrans(h, g, f);
  }

  lemma EquivalentRefl(f: Func)
    ensures Equivalent(f, f)
  {
    forall m, regs: Regs, mem, n: nat ensures ShownBy(m, f, f, regs, mem, n) {
      assert Shows(Run(m, f, n, Start(f, regs, mem)), Run(m, f, n, Start(f, regs, mem)));
    }
  }

  // ----- Well-formed functions ---------------------------------------------------------------

  function Count(ls: seq<Label>, l: Label): nat {
    if ls == [] then 0 else (if ls[0] == l then 1 else 0) + Count(ls[1..], l)
  }

  function FromCount(incoming: seq<Incoming>, l: Label): nat {
    if incoming == [] then 0 else (if incoming[0].from == l then 1 else 0) + FromCount(incoming[1..], l)
  }

  /** How many edges lead from one block to another. */
  function Edges(f: Func, from: Label, to: Label): nat {
    if from in f.blocks then Count(f.blocks[from].term.succs, to) else 0
  }

  function PhiDefs(phis: seq<Phi>): set<Reg> {
    if phis == [] then {} else PhiDefs(phis[..|phis| - 1]) + {phis[|phis| - 1].dst}
  }

  function InstDefs(insts: seq<Inst>): set<Reg> {
    if insts == [] then {} else {insts[0].dst} + InstDefs(insts[1..])
  }

  function Defs(b: Block): set<Reg> {
    PhiDefs(b.phis) + InstDefs(b.insts)
  }

  predicate Known(v: Value, a: set<Reg>) {
    v.Use? ==> v.r in a
  }

  predicate AllKnown(vs: seq<Value>, a: set<Reg>) {
    forall k :: 0 <= k < |vs| ==> Known(vs[k], a)
  }

  /** Instructions use only what is in a or written by an earlier one. */
  predicate InstsKnown(insts: seq<Inst>, a: set<Reg>) {
    insts == [] || (AllKnown(insts[0].args, a) && InstsKnown(insts[1..], a + {insts[0].dst}))
  }

  predicate KindKnown(k: Kind, a: set<Reg>) {
    match k
    case CondJump(c) => Known(c, a)
    case SwitchOn(v, _) => Known(v, a)
    case Return(v) => Known(v, a)
    case _ => true
  }

  /** No register is written twice. */
  predicate Once(b: Block) {
    OncePhis(b.phis) && OnceInsts(b.insts) && PhiDefs(b.phis) !! InstDefs(b.insts)
  }

  predicate OncePhis(phis: seq<Phi>) {
    phis == [] || (phis[|phis| - 1].dst !in PhiDefs(phis[..|phis| - 1]) && OncePhis(phis[..|phis| - 1]))
  }

  predicate OnceInsts(insts: seq<Inst>) {
    insts == [] || (insts[0].dst !in InstDefs(insts[1..]) && OnceInsts(insts[1..]))
  }

  /** For every block, registers that have certainly been written when it is entered:
      what dominance gives.  A block nothing leads to may claim anything. */
  type Avail = map<Label, set<Reg>>

  /** What has certainly been written where a block ends. */
  function AtEnd(f: Func, av: Avail, l: Label): set<Reg>
    requires l in f.blocks && l in av
  {
    av[l] + Defs(f.blocks[l])
  }

  /** The PHI node has one incoming value per predecessor edge, edges from one block
      agree, and each value is available where it comes from. */
  ghost predicate PhiOk(f: Func, av: Avail, l: Label, phi: Phi) {
    && (forall p {:trigger FromCount(phi.incoming, p)} :: FromCount(phi.incoming, p) == Edges(f, p, l))
    && (forall i, j {:trigger Agree(phi.incoming[i], phi.incoming[j])} ::
          0 <= i < |phi.incoming| && 0 <= j < |phi.incoming| ==> Agree(phi.incoming[i], phi.incoming[j]))
    && (forall i {:trigger IncomingKnown(f, av, phi.incoming[i])} ::
          0 <= i < |phi.incoming| ==> IncomingKnown(f, av, phi.incoming[i]))
  }

  predicate Agree(i: Incoming, j: Incoming) {
    i.from == j.from ==> i.value == j.value
  }

  ghost predicate IncomingKnown(f: Func, av: Avail, i: Incoming) {
    i.from in f.blocks && i.from in av && Known(i.value, AtEnd(f, av, i.from))
  }

  ghost predicate PhisOk(f: Func, av: Avail, l: Label, phis: seq<Phi>) {
    forall k {:trigger PhiOk(f, av, l, phis[k])} :: 0 <= k < |phis| ==> PhiOk(f, av, l, phis[k])
  }

  ghost predicate EdgeOk(f: Func, av: Avail, l: Label, to: Label)
    requires l in f.blocks && l in av
  {
    to in f.blocks && to in av && to != f.entry && av[to] <= AtEnd(f, av, l)
  }

  ghost predicate EdgesOk(f: Func, av: Avail, l: Label, succs: seq<Label>)
    requires l in f.blocks && l in av
  {
    forall k {:trigger EdgeOk(f, av, l, succs[k])} :: 0 <= k < |succs| ==> EdgeOk(f, av, l, succs[k])
  }

  predicate ShapeOk(t: Term) {
    match t.kind
    case Jump => |t.succs| == 1
    case CondJump(_) => |t.succs| == 2
    case SwitchOn(_, cases) => |t.succs| == |cases| + 1
    case Return(_) => t.succs == []
    case Unreachable => t.succs == []
    case Erased => true
  }

  ghost predicate BlockOk(f: Func, av: Avail, l: Label)
    requires l in f.blocks && l in av
  {
    var b := f.blocks[l];
    && ShapeOk(b.term) && Once(b) && Defs(b) !! f.params
    && InstsKnown(b.insts, av[l] + PhiDefs(b.phis)) && KindKnown(b.term.kind, AtEnd(f, av, l))
    && EdgesOk(f, av, l, b.term.succs)
    && PhisOk(f, av, l, b.phis)
  }

  /** Two blocks write different registers. */
  ghost predicate Apart(f: Func, l: Label, k: Label)
    requires l in f.blocks && k in f.blocks
  {
    l != k ==> Defs(f.blocks[l]) !! Defs(f.blocks[k])
  }

  /** Well-formed SSA, with av as the evidence that definitions dominate uses. */
  ghost predicate Wf(f: Func, av: Avail) {
    && f.entry in f.blocks && av.Keys == f.blocks.Keys && av[f.entry] == f.params
    && (forall l {:trigger BlockOk(f, av, l)} :: l in f.blocks ==> BlockOk(f, av, l))
    && (forall l, k {:trigger Apart(f, l, k)} :: l in f.blocks && k in f.blocks ==> Apart(f, l, k))
  }

  ghost predicate WellFormed(f: Func) {
    exists av :: Wf(f, av)
  }
}
