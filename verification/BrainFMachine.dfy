/** The code the compiler emits: basic blocks with PHI nodes, and a machine that
    runs them one instruction at a time. */
module BrainFMachine {
  import opened BrainFLanguage

  type Reg = nat
  type BlockId = nat

  datatype Val = Ptr(offset: int) | I8(b: Byte) | I32(n: int) | I1(t: bool)

  datatype Inst =
    | Malloc(dst: Reg, size: nat)
    | Memset(ptr: Reg, size: nat)
    | Gep(dst: Reg, base: Reg, offset: int)
    | Load(dst: Reg, ptr: Reg)
    | Store(src: Reg, ptr: Reg)
    | AddI8(dst: Reg, src: Reg, imm: int)
    | GetCharCall(dst: Reg)
    | TruncI8(dst: Reg, src: Reg)
    | SExtI32(dst: Reg, src: Reg)
    | PutCharCall(src: Reg)
    | ICmpUGE(dst: Reg, a: Reg, b: Reg)
    | ICmpULT(dst: Reg, a: Reg, b: Reg)
    | OrI1(dst: Reg, a: Reg, b: Reg)
    | ICmpEqZero(dst: Reg, src: Reg)
    | Free(ptr: Reg)
    | Puts(line: string)

  datatype Term = Open | Br(target: BlockId) | CondBr(cond: Reg, yes: BlockId, no: BlockId) | RetVoid

  /** One incoming value of a PHI node: the register and the predecessor it comes from. */
  datatype Incoming = Incoming(value: Reg, from: BlockId)

  datatype Phi = Phi(dst: Reg, incoming: seq<Incoming>)

  /** A block whose terminator is Open is still being built. */
  datatype Block = Block(phis: seq<Phi>, insts: seq<Inst>, term: Term)

  type Code = seq<Block>

  /** The storage malloc hands out is the tape; live says whether it may be accessed. */
  datatype Config = Config(block: BlockId, pc: nat, regs: map<Reg, Val>, tape: seq<Byte>, live: bool,
                           input: seq<Byte>, output: seq<Event>, status: Status)

  // ----- Values -------------------------------------------------------------------

  predicate Has(c: Config, r: Reg) { r in c.regs }

  predicate HasPtr(c: Config, r: Reg) { r in c.regs && c.regs[r].Ptr? }

  predicate Accessible(c: Config, r: Reg)
    requires HasPtr(c, r)
  {
    c.live && 0 <= c.regs[r].offset < |c.tape|
  }

  function Signed8(b: Byte): int { if b < 128 then b else b - 256 }

  function Set(c: Config, r: Reg, v: Val): Config {
    c.(pc := c.pc + 1, regs := c.regs[r := v])
  }

  // ----- Instructions ---------------------------------------------------------------

  /** A register read before it is written, or of the wrong type, leaves the machine
      Stuck; an access outside live storage is Trapped. */
  function Exec(i: Inst, c: Config): Config {
    var stuck := c.(status := Stuck);
    match i
    case Malloc(dst, size) =>
      if |c.tape| != size then stuck else Set(c, dst, Ptr(0)).(live := true)
    case Memset(p, size) =>
      if !HasPtr(c, p) then stuck
      else if c.regs[p].offset != 0 || size != |c.tape| || !c.live then c.(status := Trapped)
      else c.(pc := c.pc + 1, tape := seq(size, _ => 0))
    case Gep(dst, base, offset) =>
      if HasPtr(c, base) then Set(c, dst, Ptr(c.regs[base].offset + offset)) else stuck
    case Load(dst, p) =>
      if !HasPtr(c, p) then stuck
      else if !Accessible(c, p) then c.(status := Trapped)
      else Set(c, dst, I8(c.tape[c.regs[p].offset]))
    case Store(src, p) =>
      if !HasPtr(c, p) || !Has(c, src) || !c.regs[src].I8? then stuck
      else if !Accessible(c, p) then c.(status := Trapped)
      else c.(pc := c.pc + 1, tape := c.tape[c.regs[p].offset := c.regs[src].b])
    case AddI8(dst, src, imm) =>
      if Has(c, src) && c.regs[src].I8? then Set(c, dst, I8((c.regs[src].b + imm % 256) % 256)) else stuck
    case GetCharCall(dst) =>
      if c.input == [] then Set(c, dst, I32(-1))
      else Set(c, dst, I32(c.input[0])).(input := c.input[1..])
    case TruncI8(dst, src) =>
      if Has(c, src) && c.regs[src].I32? then Set(c, dst, I8(c.regs[src].n % 256)) else stuck
    case SExtI32(dst, src) =>
      if Has(c, src) && c.regs[src].I8? then Set(c, dst, I32(Signed8(c.regs[src].b))) else stuck
    case PutCharCall(src) =>
      // putchar writes its int argument converted to unsigned char.
      if Has(c, src) && c.regs[src].I32?
      then c.(pc := c.pc + 1, output := c.output + [PutChar(c.regs[src].n % 256)]) else stuck
    case ICmpUGE(dst, a, b) =>
      if HasPtr(c, a) && HasPtr(c, b) then Set(c, dst, I1(c.regs[a].offset >= c.regs[b].offset)) else stuck
    case ICmpULT(dst, a, b) =>
      if HasPtr(c, a) && HasPtr(c, b) then Set(c, dst, I1(c.regs[a].offset < c.regs[b].offset)) else stuck
    case OrI1(dst, a, b) =>
      if Has(c, a) && Has(c, b) && c.regs[a].I1? && c.regs[b].I1?
      then Set(c, dst, I1(c.regs[a].t || c.regs[b].t)) else stuck
    case ICmpEqZero(dst, src) =>
      if Has(c, src) && c.regs[src].I8? then Set(c, dst, I1(c.regs[src].b == 0)) else stuck
    case Free(p) =>
      if !HasPtr(c, p) then stuck
      else if c.regs[p].offset != 0 || !c.live then c.(status := Trapped)
      else c.(pc := c.pc + 1, live := false)
    case Puts(line) => c.(pc := c.pc + 1, output := c.output + [PutLine(line)])
  }

  // ----- Control --------------------------------------------------------------------

  /** The index of the incoming value for predecessor from, or the length if there is none. */
  function IncomingFrom(incoming: seq<Incoming>, from: BlockId): (k: nat)
    ensures k <= |incoming|
    ensures k < |incoming| ==> incoming[k].from == from
  {
    if incoming == [] then 0
    else if incoming[0].from == from then 0
    else 1 + IncomingFrom(incoming[1..], from)
  }

  predicate PhiReady(p: Phi, from: BlockId, regs: map<Reg, Val>) {
    var k := IncomingFrom(p.incoming, from);
    k < |p.incoming| && p.incoming[k].value in regs
  }

  /** All PHI nodes of a block read their values before any of them is written. */
  function EvalPhis(phis: seq<Phi>, from: BlockId, regs: map<Reg, Val>): map<Reg, Val>
    requires forall p :: p in phis ==> PhiReady(p, from, regs)
  {
    if phis == [] then regs
    else
      var last := phis[|phis| - 1];
      assert last in phis && PhiReady(last, from, regs);
      EvalPhis(phis[..|phis| - 1], from, regs)[last.dst := regs[last.incoming[IncomingFrom(last.incoming, from)].value]]
  }

  function Enter(code: Code, c: Config, target: BlockId): Config {
    if target < |code| && forall p :: p in code[target].phis ==> PhiReady(p, c.block, c.regs)
    then c.(block := target, pc := 0, regs := EvalPhis(code[target].phis, c.block, c.regs))
    else c.(status := Stuck)
  }

  function Step(code: Code, c: Config): Config {
    if c.status != Running then c
    else if c.block >= |code| then c.(status := Stuck)
    else
      var b := code[c.block];
      if c.pc < |b.insts| then Exec(b.insts[c.pc], c)
      else match b.term
        case Open => c.(status := Stuck)
        case Br(t) => Enter(code, c, t)
        case CondBr(cond, yes, no) =>
          if Has(c, cond) && c.regs[cond].I1? then Enter(code, c, if c.regs[cond].t then yes else no)
          else c.(status := Stuck)
        case RetVoid => c.(status := Returned)
  }

  function Run(code: Code, n: nat, c: Config): Config {
    if n == 0 then c else Run(code, n - 1, Step(code, c))
  }

  /** Control starts at the first block; the storage malloc will hand out has unknown contents. */
  function Start(storage: seq<Byte>, input: seq<Byte>): Config {
    Config(0, 0, map[], storage, false, input, [], Running)
  }

  lemma {:induction false} RunAdd(code: Code, m: nat, n: nat, c: Config)
    ensures Run(code, m + n, c) == Run(code, n, Run(code, m, c))
  {
    if m > 0 {
      RunAdd(code, m - 1, n, Step(code, c));
    }
  }

  lemma {:induction false} HaltedStays(code: Code, n: nat, c: Config)
    requires c.status != Running
    ensures Run(code, n, c) == c
  {
    if n > 0 {
      HaltedStays(code, n - 1, c);
    }
  }

  lemma StepOutputGrows(code: Code, c: Config)
    ensures c.output <= Step(code, c).output
  {
  }

  lemma {:induction false} OutputGrows(code: Code, n: nat, c: Config)
    ensures c.output <= Run(code, n, c).output
  {
    if n > 0 {
      StepOutputGrows(code, c);
      OutputGrows(code, n - 1, Step(code, c));
    }
  }

  /** Sign extension and putchar's conversion to unsigned char cancel out. */
  lemma SignExtendedWrites(b: Byte)
    ensures Signed8(b) % 256 == b
  {
  }
}
