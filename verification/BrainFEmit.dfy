/** What the compiler's builder appends for each command, and the proof that running
    it does what evaluating the command does. */
module BrainFEmit {
  import opened BrainFLanguage
  import opened BrainFMachine

  const ENTRY: BlockId := 0
  const END: BlockId := 1
  const ABERROR: BlockId := 2
  const ARR: Reg := 0
  const ARRMAX: Reg := 1

  /** The state of code generation: the blocks so far, the block instructions are
      appended to, the register holding the head pointer, and the next free register. */
  datatype Builder = Builder(code: Code, cur: BlockId, head: Reg, next: Reg) {
    predicate Valid() {
      cur < |code| && code[cur].term.Open?
    }

    function Pc(): nat
      requires Valid()
    {
      |code[cur].insts|
    }

    function Append(i: Inst): Builder
      requires Valid()
    {
      this.(code := code[cur := code[cur].(insts := code[cur].insts + [i])])
    }

    function Terminate(t: Term): Code
      requires Valid()
    {
      code[cur := code[cur].(term := t)]
    }
  }

  // ----- Emission ---------------------------------------------------------------

  /** The entry block, the common return block, and the error block if bounds are checked. */
  function Header(mem: nat, checked: bool): Builder {
    var entry := [Malloc(ARR, mem), Memset(ARR, mem)]
               + (if checked then [Gep(ARRMAX, ARR, mem)] else [])
               + [Gep(2, ARR, mem / 2)];
    var end := Block([], [Free(ARR)], RetVoid);
    var aberror := Block([], [Puts(OFF_TAPE)], Br(END));
    Builder([Block([], entry, Open), end] + (if checked then [aberror] else []), ENTRY, 2, 3)
  }

  function EmitMove(checked: bool, b: Builder, n: int): Builder
    requires b.Valid()
  {
    var b1 := b.Append(Gep(b.next, b.head, n)).(head := b.next, next := b.next + 1);
    if !checked then b1
    else
      var t := b1.next;
      var b2 := b1.Append(ICmpUGE(t, b1.head, ARRMAX)).Append(ICmpULT(t + 1, b1.head, ARR)).Append(OrI1(t + 2, t, t + 1));
      var nextbb := |b2.code|;
      Builder(b2.Terminate(CondBr(t + 2, ABERROR, nextbb)) + [Block([], [], Open)], nextbb, b1.head, t + 3)
  }

  function OpenLoop(b: Builder): Builder
    requires b.Valid()
  {
    var testbb := |b.code|;
    var phi := Phi(b.next, [Incoming(b.head, b.cur)]);
    Builder(b.Terminate(Br(testbb)) + [Block([phi], [], Open), Block([], [], Open)], testbb + 1, b.next, b.next + 1)
  }

  /** phi->addIncoming: one more incoming value for the PHI node defining dst. */
  function AddIncoming(phis: seq<Phi>, dst: Reg, i: Incoming): seq<Phi> {
    if phis == [] then []
    else if phis[0].dst == dst then [phis[0].(incoming := phis[0].incoming + [i])] + phis[1..]
    else [phis[0]] + AddIncoming(phis[1..], dst, i)
  }

  /** Close the loop with test block testbb, whose PHI node defines phi, and body block bodybb. */
  function CloseLoop(b: Builder, phi: Reg, testbb: BlockId, bodybb: BlockId): (b': Builder)
    requires b.Valid() && testbb < |b.code|
    ensures b'.Valid()
  {
    var code1 := b.Terminate(Br(testbb));
    var exitbb := |code1|;
    var test := Block(AddIncoming(code1[testbb].phis, phi, Incoming(b.head, b.cur)),
                      code1[testbb].insts + [Load(b.next, phi), ICmpEqZero(b.next + 1, b.next)],
                      CondBr(b.next + 1, exitbb, bodybb));
    var exit := Block([Phi(b.next + 2, [Incoming(phi, testbb)])], [], Open);
    Builder(code1[testbb := test] + [exit], exitbb, b.next + 2, b.next + 3)
  }

  /** Three instructions in a row, using two new registers. */
  function Append3(b: Builder, i: Inst, j: Inst, k: Inst): Builder
    requires b.Valid()
  {
    b.Append(i).Append(j).Append(k).(next := b.next + 2)
  }

  function EmitCmd(checked: bool, b: Builder, cmd: Cmd): (b': Builder)
    requires b.Valid()
    ensures b'.Valid() && |b.code| <= |b'.code|
    decreases cmd, 0
  {
    match cmd
    case Move(n) => EmitMove(checked, b, n)
    case Change(n) => Append3(b, Load(b.next, b.head), AddI8(b.next + 1, b.next, n), Store(b.next + 1, b.head))
    case Read => Append3(b, GetCharCall(b.next), TruncI8(b.next + 1, b.next), Store(b.next + 1, b.head))
    case Write => Append3(b, Load(b.next, b.head), SExtI32(b.next + 1, b.next), PutCharCall(b.next + 1))
    case Loop(body) => CloseLoop(Emit(checked, OpenLoop(b), body), b.next, |b.code|, |b.code| + 1)
  }

  function Emit(checked: bool, b: Builder, cmds: seq<Cmd>): (b': Builder)
    requires b.Valid()
    ensures b'.Valid() && |b.code| <= |b'.code|
    decreases cmds, 1
  {
    if cmds == [] then b else Emit(checked, EmitCmd(checked, b, cmds[0]), cmds[1..])
  }

  /** The finished function: the last block jumps to the common return block. */
  function Compile(mem: nat, checked: bool, cmds: seq<Cmd>): Code {
    Emit(checked, Header(mem, checked), cmds).Terminate(Br(END))
  }

  // ----- Later emission only extends the current block ------------------------------

  /** f is b, possibly with more instructions, incoming values and a terminator. */
  ghost predicate BlockExt(b: Block, f: Block) {
    && |b.phis| == |f.phis|
    && (forall k :: 0 <= k < |b.phis| ==> b.phis[k].dst == f.phis[k].dst && b.phis[k].incoming <= f.phis[k].incoming)
    && b.insts <= f.insts
    && (b.term != Open ==> f == b)
  }

  /** Every block of code is extended by the block of f at the same place. */
  ghost predicate Ext(code: Code, f: Code) {
    |code| <= |f| && forall i {:trigger BlockExt(code[i], f[i])} :: 0 <= i < |code| ==> BlockExt(code[i], f[i])
  }

  lemma ExtTrans(a: Code, b: Code, c: Code)
    requires Ext(a, b) && Ext(b, c)
    ensures Ext(a, c)
  {
    forall i | 0 <= i < |a| ensures BlockExt(a[i], c[i]) {
      assert BlockExt(a[i], b[i]) && BlockExt(b[i], c[i]);
    }
  }

  /** What emitting commands leaves alone: every block but the current one. */
  ghost predicate Frame(b: Builder, b': Builder) {
    && |b.code| <= |b'.code| && b.cur < |b.code|
    && (forall i :: 0 <= i < |b.code| && i != b.cur ==> b'.code[i] == b.code[i])
    && BlockExt(b.code[b.cur], b'.code[b.cur])
    && b'.code[b.cur].phis == b.code[b.cur].phis
    && (b'.cur == b.cur || b'.cur >= |b.code|)
    && b.next <= b'.next
  }

  lemma FrameExt(b: Builder, b': Builder)
    requires Frame(b, b')
    ensures Ext(b.code, b'.code)
  {
  }

  lemma FrameTrans(a: Builder, b: Builder, c: Builder)
    requires Frame(a, b) && Frame(b, c)
    ensures Frame(a, c)
  {
  }

  lemma MoveFrame(checked: bool, b: Builder, n: int)
    requires b.Valid()
    ensures Frame(b, EmitMove(checked, b, n))
  {
  }

  /** The blocks of the loop emitted after b, as they stand in f; b2 is the builder at
      the end of its body. */
  ghost predicate LoopCode(f: Code, b: Builder, b2: Builder) {
    var testbb := |b.code|;
    var exitbb := |b2.code|;
    && b.Valid() && b2.Valid() && b.next < b2.next && testbb + 1 < exitbb < |f|
    && f[b.cur] == b.code[b.cur].(term := Br(testbb))
    && f[testbb] == Block([Phi(b.next, [Incoming(b.head, b.cur), Incoming(b2.head, b2.cur)])],
                          [Load(b2.next, b.next), ICmpEqZero(b2.next + 1, b2.next)],
                          CondBr(b2.next + 1, exitbb, testbb + 1))
    && b2.cur > testbb && f[b2.cur] == b2.code[b2.cur].(term := Br(testbb))
    && f[testbb + 1].phis == []
    && BlockExt(Block([Phi(b2.next + 2, [Incoming(b.next, testbb)])], [], Open), f[exitbb])
  }

  /** What closing a loop does to each block. */
  lemma ClosedLoop(b: Builder, b2: Builder)
    requires b.Valid() && b2.Valid() && Frame(OpenLoop(b), b2)
    ensures var b3 := CloseLoop(b2, b.next, |b.code|, |b.code| + 1);
      && Frame(b, b3) && |b3.code| == |b2.code| + 1 && LoopCode(b3.code, b, b2)
      && b3.code[|b2.code|] == Block([Phi(b2.next + 2, [Incoming(b.next, |b.code|)])], [], Open)
      && (forall i :: 0 <= i < |b2.code| && i != b2.cur && i != |b.code| ==> b3.code[i] == b2.code[i])
  {
    var b1 := OpenLoop(b);
    var testbb := |b.code|;
    assert b2.code[testbb] == b1.code[testbb];
    assert b2.code[b.cur] == b1.code[b.cur];
    var p := Phi(b.next, [Incoming(b.head, b.cur)]);
    var back := Incoming(b2.head, b2.cur);
    assert p.incoming + [back] == [Incoming(b.head, b.cur), back];
    assert AddIncoming([p], b.next, back) == [p.(incoming := p.incoming + [back])] + [p][1..]
        == [Phi(b.next, [Incoming(b.head, b.cur), back])];
    assert b2.code[testbb].insts + [Load(b2.next, b.next), ICmpEqZero(b2.next + 1, b2.next)]
        == [Load(b2.next, b.next), ICmpEqZero(b2.next + 1, b2.next)];
  }

  lemma LoopCodeExt(code: Code, f: Code, b: Builder, b2: Builder)
    requires LoopCode(code, b, b2) && Ext(code, f)
    ensures LoopCode(f, b, b2)
  {
    assert BlockExt(code[b.cur], f[b.cur]);
    assert BlockExt(code[|b.code|], f[|b.code|]);
    assert BlockExt(code[b2.cur], f[b2.cur]);
    assert BlockExt(code[|b.code| + 1], f[|b.code| + 1]);
    assert BlockExt(code[|b2.code|], f[|b2.code|]);
  }

  lemma ClosedLoopExt(b: Builder, b2: Builder)
    requires b.Valid() && b2.Valid() && Frame(OpenLoop(b), b2)
    ensures Ext(b2.code, CloseLoop(b2, b.next, |b.code|, |b.code| + 1).code)
  {
    ClosedLoop(b, b2);
    var b3 := CloseLoop(b2, b.next, |b.code|, |b.code| + 1);
    assert b2.code[|b.code|] == OpenLoop(b).code[|b.code|];
    forall i | 0 <= i < |b2.code| ensures BlockExt(b2.code[i], b3.code[i]) {
    }
  }

  lemma {:induction false} EmitCmdFrame(checked: bool, b: Builder, cmd: Cmd)
    requires b.Valid()
    ensures Frame(b, EmitCmd(checked, b, cmd))
    decreases cmd, 0
  {
    match cmd
    case Move(n) => MoveFrame(checked, b, n);
    case Loop(body) =>
      EmitFrame(checked, OpenLoop(b), body);
      ClosedLoop(b, Emit(checked, OpenLoop(b), body));
    case _ => StraightFrame(checked, b, cmd);
  }

  lemma StraightFrame(checked: bool, b: Builder, cmd: Cmd)
    requires b.Valid() && !cmd.Move? && !cmd.Loop?
    ensures Frame(b, EmitCmd(checked, b, cmd))
  {
  }

  lemma {:induction false} EmitFrame(checked: bool, b: Builder, cmds: seq<Cmd>)
    requires b.Valid()
    ensures Frame(b, Emit(checked, b, cmds))
    decreases cmds, 1
  {
    if cmds != [] {
      var b1 := EmitCmd(checked, b, cmds[0]);
      EmitCmdFrame(checked, b, cmds[0]);
      EmitFrame(checked, b1, cmds[1..]);
      FrameTrans(b, b1, Emit(checked, b1, cmds[1..]));
    }
  }
}
