/** Running the emitted code does what evaluating the fused commands says: every
    state of the evaluation is reached, and a loop that spends the evaluation's
    budget spends at least as many machine steps. */
module BrainFSimulation {
  import opened BrainFLanguage
  import opened BrainFMachine
  import opened BrainFEmit

  predicate Points(c: Config, r: Reg, offset: int) {
    r in c.regs && c.regs[r] == Ptr(offset)
  }

  predicate Same(c: Config, w: World) {
    c.tape == w.tape && c.input == w.input && c.output == w.output
  }

  /** The machine is running in world w, apart from where the head pointer is kept. */
  predicate Holds(checked: bool, c: Config, w: World) {
    && c.status == Running && c.live && Same(c, w)
    && Points(c, ARR, 0)
    && (checked ==> Points(c, ARRMAX, |w.tape|))
  }

  /** The machine stands where the builder would append next. */
  predicate At(checked: bool, b: Builder, c: Config, w: World) {
    && b.Valid() && 2 <= b.head < b.next
    && c.block == b.cur && c.pc == b.Pc()
    && Holds(checked, c, w) && Points(c, b.head, w.head)
  }

  /** The blocks every compiled function shares. */
  ghost predicate Epilogue(checked: bool, f: Code) {
    && |f| > 1 && f[END] == Block([], [Free(ARR)], RetVoid)
    && (checked ==> |f| > 2 && f[ABERROR] == Block([], [Puts(OFF_TAPE)], Br(END)))
  }

  ghost predicate Reached(checked: bool, b: Builder, c: Config, o: Outcome) {
    match o
    case Done(w) => At(checked, b, c, w)
    case Reported(w) => c.status == Returned && Same(c, w) && !c.live
    case Undefined(w) => c.status == Trapped && Same(c, w)
    case Timeout(w) => c.status == Running && Same(c, w)
  }

  // ----- Straight-line code -----------------------------------------------------------

  lemma Run1(f: Code, c: Config)
    ensures Run(f, 1, c) == Step(f, c)
  {
    assert Run(f, 1, c) == Run(f, 0, Step(f, c));
  }

  /** Executing instructions one after another until one of them stops the machine. */
  function ExecAll(insts: seq<Inst>, c: Config): Config {
    if insts == [] || c.status != Running then c else ExecAll(insts[1..], Exec(insts[0], c))
  }

  lemma ExecAll3(i: Inst, j: Inst, k: Inst, c: Config)
    requires c.status == Running && Exec(i, c).status == Running && Exec(j, Exec(i, c)).status == Running
    ensures ExecAll([i, j, k], c) == Exec(k, Exec(j, Exec(i, c)))
  {
    var c1 := Exec(i, c);
    var c2 := Exec(j, c1);
    assert [i, j, k][1..] == [j, k] && [j, k][1..] == [k];
    assert ExecAll([i, j, k], c) == ExecAll([j, k], c1);
    assert ExecAll([j, k], c1) == ExecAll([k], c2);
    assert ExecAll([k], c2) == ExecAll([k][1..], Exec(k, c2));
  }

  lemma ExecAllStops(insts: seq<Inst>, c: Config)
    requires insts != [] && c.status == Running && Exec(insts[0], c).status != Running
    ensures ExecAll(insts, c) == Exec(insts[0], c)
  {
  }

  /** The machine executes, from the builder's position, exactly the instructions appended there. */
  lemma {:induction false} Straight(f: Code, block: BlockId, pc: nat, insts: seq<Inst>, c: Config)
    requires block < |f| && pc + |insts| <= |f[block].insts| && f[block].insts[pc..pc + |insts|] == insts
    requires c.block == block && c.pc == pc
    ensures Run(f, |insts|, c) == ExecAll(insts, c)
    decreases |insts|
  {
    if c.status != Running {
      HaltedStays(f, |insts|, c);
    } else if insts != [] {
      var c1 := Exec(insts[0], c);
      assert f[block].insts[pc] == f[block].insts[pc..pc + |insts|][0] == insts[0];
      assert Step(f, c) == c1;
      assert insts[1..] == f[block].insts[pc + 1..pc + |insts|];
      if c1.status == Running {
        Straight(f, block, pc + 1, insts[1..], c1);
      } else {
        HaltedStays(f, |insts| - 1, c1);
      }
    }
  }

  lemma StraightAfter(f: Code, b: Builder, insts: seq<Inst>, b': Builder, c: Config)
    requires b.Valid() && b.cur < |b'.code| && b'.code[b.cur].insts == b.code[b.cur].insts + insts && Ext(b'.code, f)
    requires c.block == b.cur && c.pc == b.Pc()
    ensures Run(f, |insts|, c) == ExecAll(insts, c)
  {
    assert BlockExt(b'.code[b.cur], f[b.cur]);
    assert f[b.cur].insts[b.Pc()..b.Pc() + |insts|] == insts;
    Straight(f, b.cur, b.Pc(), insts, c);
  }

  lemma Append3Insts(b: Builder, i: Inst, j: Inst, k: Inst)
    requires b.Valid()
    ensures Append3(b, i, j, k).code[b.cur].insts == b.code[b.cur].insts + [i, j, k]
  {
  }

  lemma At3(checked: bool, b: Builder, i: Inst, j: Inst, k: Inst, c: Config, w: World)
    requires b.Valid() && 2 <= b.head < b.next
    requires c.block == b.cur && c.pc == b.Pc() + 3 && Holds(checked, c, w) && Points(c, b.head, w.head)
    ensures At(checked, Append3(b, i, j, k), c, w)
  {
    Append3Insts(b, i, j, k);
  }

  lemma SimChange(f: Code, checked: bool, b: Builder, v: int, c: Config, w: World) returns (n: nat)
    requires At(checked, b, c, w) && Ext(EmitCmd(checked, b, Change(v)).code, f)
    ensures Reached(checked, EmitCmd(checked, b, Change(v)), Run(f, n, c), EvalCmd(checked, Change(v), w, 0))
  {
    var r := b.next;
    var i, j, k := Load(r, b.head), AddI8(r + 1, r, v), Store(r + 1, b.head);
    n := 3;
    Append3Insts(b, i, j, k);
    StraightAfter(f, b, [i, j, k], EmitCmd(checked, b, Change(v)), c);
    ChangeSteps(checked, b, v, c, w);
  }

  lemma ChangeSteps(checked: bool, b: Builder, v: int, c: Config, w: World)
    requires At(checked, b, c, w)
    ensures var r := b.next;
      var i, j, k := Load(r, b.head), AddI8(r + 1, r, v), Store(r + 1, b.head);
      Reached(checked, Append3(b, i, j, k), ExecAll([i, j, k], c), if w.OnTape() then Done(w.Add(v)) else Undefined(w))
  {
    var r := b.next;
    var i, j, k := Load(r, b.head), AddI8(r + 1, r, v), Store(r + 1, b.head);
    if w.OnTape() {
      var c1 := Exec(i, c);
      var c2 := Exec(j, c1);
      assert (w.Cell() + v % 256) % 256 == (w.Cell() + v) % 256;
      ExecAll3(i, j, k, c);
      At3(checked, b, i, j, k, Exec(k, c2), w.Add(v));
    } else {
      ExecAllStops([i, j, k], c);
    }
  }

  lemma SimRead(f: Code, checked: bool, b: Builder, c: Config, w: World) returns (n: nat)
    requires At(checked, b, c, w) && Ext(EmitCmd(checked, b, Read).code, f)
    ensures Reached(checked, EmitCmd(checked, b, Read), Run(f, n, c), EvalCmd(checked, Read, w, 0))
  {
    var r := b.next;
    var i, j, k := GetCharCall(r), TruncI8(r + 1, r), Store(r + 1, b.head);
    n := 3;
    Append3Insts(b, i, j, k);
    StraightAfter(f, b, [i, j, k], EmitCmd(checked, b, Read), c);
    ReadSteps(checked, b, c, w);
  }

  lemma ReadSteps(checked: bool, b: Builder, c: Config, w: World)
    requires At(checked, b, c, w)
    ensures var r := b.next;
      var i, j, k := GetCharCall(r), TruncI8(r + 1, r), Store(r + 1, b.head);
      Reached(checked, Append3(b, i, j, k), ExecAll([i, j, k], c), if w.OnTape() then Done(w.ReadCell()) else Undefined(w.SkipInput()))
  {
    var r := b.next;
    var i, j, k := GetCharCall(r), TruncI8(r + 1, r), Store(r + 1, b.head);
    var got: int := if w.input == [] then -1 else w.input[0];
    var c1 := Exec(i, c);
    assert c1 == Set(c, r, I32(got)).(input := w.SkipInput().input);
    var c2 := Exec(j, c1);
    assert c2 == Set(c1, r + 1, I8(got % 256));
    ExecAll3(i, j, k, c);
    if w.OnTape() {
      At3(checked, b, i, j, k, Exec(k, c2), w.ReadCell());
    }
  }

  lemma SimWrite(f: Code, checked: bool, b: Builder, c: Config, w: World) returns (n: nat)
    requires At(checked, b, c, w) && Ext(EmitCmd(checked, b, Write).code, f)
    ensures Reached(checked, EmitCmd(checked, b, Write), Run(f, n, c), EvalCmd(checked, Write, w, 0))
  {
    var r := b.next;
    var i, j, k := Load(r, b.head), SExtI32(r + 1, r), PutCharCall(r + 1);
    n := 3;
    Append3Insts(b, i, j, k);
    StraightAfter(f, b, [i, j, k], EmitCmd(checked, b, Write), c);
    WriteSteps(checked, b, c, w);
  }

  lemma WriteSteps(checked: bool, b: Builder, c: Config, w: World)
    requires At(checked, b, c, w)
    ensures var r := b.next;
      var i, j, k := Load(r, b.head), SExtI32(r + 1, r), PutCharCall(r + 1);
      Reached(checked, Append3(b, i, j, k), ExecAll([i, j, k], c), if w.OnTape() then Done(w.WriteCell()) else Undefined(w))
  {
    var r := b.next;
    var i, j, k := Load(r, b.head), SExtI32(r + 1, r), PutCharCall(r + 1);
    if w.OnTape() {
      var c1 := Exec(i, c);
      var c2 := Exec(j, c1);
      SignExtendedWrites(w.Cell());
      ExecAll3(i, j, k, c);
      At3(checked, b, i, j, k, Exec(k, c2), w.WriteCell());
    } else {
      ExecAllStops([i, j, k], c);
    }
  }

  // ----- Head moves --------------------------------------------------------------------

  /** From the error block: the line is printed, the storage freed, and the function returns. */
  lemma ErrorExit(f: Code, c: Config, w: World)
    requires Epilogue(true, f)
    requires c.status == Running && c.live && c.block == ABERROR && c.pc == 0 && Same(c, w) && Points(c, ARR, 0)
    ensures Run(f, 4, c).status == Returned && Same(Run(f, 4, c), w.ReportOffTape()) && !Run(f, 4, c).live
  {
    var c1 := Step(f, c);
    assert c1 == c.(pc := 1, output := w.ReportOffTape().output);
    var c2 := Step(f, c1);
    assert c2 == c1.(block := END, pc := 0);
    NormalExit(f, c2, w.ReportOffTape());
    RunAdd(f, 1, 3, c);
    Run1(f, c);
    RunAdd(f, 1, 2, c1);
    Run1(f, c1);
  }

  /** From the common return block: the storage is freed and the function returns. */
  lemma NormalExit(f: Code, c: Config, w: World)
    requires Epilogue(false, f)
    requires c.status == Running && c.live && c.block == END && c.pc == 0 && Same(c, w) && Points(c, ARR, 0)
    ensures Run(f, 2, c).status == Returned && Same(Run(f, 2, c), w) && !Run(f, 2, c).live
  {
    var c1 := Step(f, c);
    assert c1 == c.(pc := 1, live := false);
    RunAdd(f, 1, 1, c);
    Run1(f, c);
    Run1(f, c1);
  }

  lemma SimMove(f: Code, checked: bool, b: Builder, v: int, c: Config, w: World) returns (n: nat)
    requires At(checked, b, c, w) && Ext(EmitCmd(checked, b, Move(v)).code, f) && Epilogue(checked, f)
    ensures Reached(checked, EmitCmd(checked, b, Move(v)), Run(f, n, c), EvalCmd(checked, Move(v), w, 0))
  {
    if checked {
      n := SimCheckedMove(f, b, v, c, w);
    } else {
      n := 1;
      var i := Gep(b.next, b.head, v);
      StraightAfter(f, b, [i], EmitMove(false, b, v), c);
      assert ExecAll([i], c) == Exec(i, c);
    }
  }

  /** The instructions of a checked move. */
  function CheckInsts(h: Reg, head: Reg, v: int): seq<Inst> {
    [Gep(h, head, v), ICmpUGE(h + 1, h, ARRMAX), ICmpULT(h + 2, h, ARR), OrI1(h + 3, h + 1, h + 2)]
  }

  /** The block a checked move ends is complete, and the next one is empty. */
  lemma CheckedMoveCode(b: Builder, v: int)
    requires b.Valid()
    ensures var b' := EmitMove(true, b, v);
      && b'.cur == |b.code| && b'.head == b.next && b'.next == b.next + 4
      && b'.code[b.cur] == Block(b.code[b.cur].phis, b.code[b.cur].insts + CheckInsts(b.next, b.head, v), CondBr(b.next + 3, ABERROR, b'.cur))
      && b'.code[b'.cur] == Block([], [], Open)
  {
    var h := b.next;
    assert b.code[b.cur].insts + [Gep(h, b.head, v)] + [ICmpUGE(h + 1, h, ARRMAX)] + [ICmpULT(h + 2, h, ARR)] + [OrI1(h + 3, h + 1, h + 2)]
        == b.code[b.cur].insts + CheckInsts(h, b.head, v);
  }

  lemma ExecGep(c: Config, dst: Reg, base: Reg, v: int, x: int)
    requires Points(c, base, x)
    ensures Exec(Gep(dst, base, v), c) == Set(c, dst, Ptr(x + v))
  {
  }

  lemma ExecCompare(c: Config, dst: Reg, a: Reg, b: Reg, x: int, y: int)
    requires Points(c, a, x) && Points(c, b, y)
    ensures Exec(ICmpUGE(dst, a, b), c) == Set(c, dst, I1(x >= y))
    ensures Exec(ICmpULT(dst, a, b), c) == Set(c, dst, I1(x < y))
  {
  }

  predicate Flag(c: Config, r: Reg, t: bool) {
    r in c.regs && c.regs[r] == I1(t)
  }

  lemma ExecOr(c: Config, dst: Reg, a: Reg, b: Reg, s: bool, t: bool)
    requires Flag(c, a, s) && Flag(c, b, t)
    ensures Exec(OrI1(dst, a, b), c) == Set(c, dst, I1(s || t))
  {
  }

  /** After those instructions the last register says whether the new head is off the tape. */
  lemma CheckSteps(c: Config, h: Reg, head: Reg, v: int, w: World)
    requires 2 <= head < h && Holds(true, c, w) && Points(c, head, w.head)
    ensures var w' := w.(head := w.head + v);
      var c' := ExecAll(CheckInsts(h, head, v), c);
      && Holds(true, c', w') && Points(c', h, w'.head) && c'.block == c.block && c'.pc == c.pc + 4
      && Flag(c', h + 3, !w'.OnTape())
  {
    var insts := CheckInsts(h, head, v);
    var x := w.head + v;
    ExecGep(c, h, head, v, w.head);
    var c1 := Set(c, h, Ptr(x));
    ExecCompare(c1, h + 1, h, ARRMAX, x, |w.tape|);
    var c2 := Set(c1, h + 1, I1(x >= |w.tape|));
    ExecCompare(c2, h + 2, h, ARR, x, 0);
    var c3 := Set(c2, h + 2, I1(x < 0));
    ExecOr(c3, h + 3, h + 1, h + 2, x >= |w.tape|, x < 0);
    assert insts[1..] == [insts[1], insts[2], insts[3]];
    ExecAll3(insts[1], insts[2], insts[3], c1);
  }

  /** The check and the branch on it. */
  lemma CheckBranches(f: Code, b: Builder, v: int, c: Config, w: World) returns (c5: Config)
    requires At(true, b, c, w) && Ext(EmitMove(true, b, v).code, f) && Epilogue(true, f)
    ensures var w' := w.(head := w.head + v);
      && c5 == Run(f, 5, c) && c5.block == (if w'.OnTape() then |b.code| else ABERROR) && c5.pc == 0
      && Holds(true, c5, w') && Points(c5, b.next, w'.head)
  {
    var b' := EmitMove(true, b, v);
    CheckedMoveCode(b, v);
    StraightAfter(f, b, CheckInsts(b.next, b.head, v), b', c);
    CheckSteps(c, b.next, b.head, v, w);
    var c4 := Run(f, 4, c);
    assert BlockExt(b'.code[b.cur], f[b.cur]) && BlockExt(b'.code[b'.cur], f[b'.cur]);
    c5 := Step(f, c4);
    assert c5 == c4.(block := if w.(head := w.head + v).OnTape() then b'.cur else ABERROR, pc := 0);
    RunAdd(f, 4, 1, c);
    Run1(f, c4);
  }

  lemma SimCheckedMove(f: Code, b: Builder, v: int, c: Config, w: World) returns (n: nat)
    requires At(true, b, c, w) && Ext(EmitMove(true, b, v).code, f) && Epilogue(true, f)
    ensures Reached(true, EmitMove(true, b, v), Run(f, n, c), EvalCmd(true, Move(v), w, 0))
  {
    var b' := EmitMove(true, b, v);
    var w' := w.(head := w.head + v);
    CheckedMoveCode(b, v);
    var c5 := CheckBranches(f, b, v, c, w);
    if w'.OnTape() {
      n := 5;
    } else {
      n := 9;
      ErrorExit(f, c5, w');
      RunAdd(f, 5, 4, c);
    }
  }

  // ----- Loops --------------------------------------------------------------------------

  /** b2 and b3 are the builders at the end of the body of a loop emitted after b, and
      after the loop; f contains all their code. */
  ghost predicate LoopReady(f: Code, checked: bool, b: Builder, body: seq<Cmd>, b2: Builder, b3: Builder) {
    && b.Valid() && 2 <= b.head < b.next
    && b2 == Emit(checked, OpenLoop(b), body) && Ext(b2.code, f) && LoopCode(f, b, b2)
    && b3.Valid() && b3.cur == |b2.code| && b3.Pc() == 0 && b3.head == b2.next + 2 && b3.next == b2.next + 3
  }

  lemma LoopEmitted(f: Code, checked: bool, b: Builder, body: seq<Cmd>)
    requires b.Valid() && 2 <= b.head < b.next && Ext(EmitCmd(checked, b, Loop(body)).code, f)
    ensures LoopReady(f, checked, b, body, Emit(checked, OpenLoop(b), body), EmitCmd(checked, b, Loop(body)))
  {
    var b2 := Emit(checked, OpenLoop(b), body);
    EmitFrame(checked, OpenLoop(b), body);
    ClosedLoop(b, b2);
    ClosedLoopExt(b, b2);
    var b3 := EmitCmd(checked, b, Loop(body));
    ExtTrans(b2.code, b3.code, f);
    LoopCodeExt(b3.code, f, b, b2);
  }

  /** The machine has just entered the test block of the loop emitted after b. */
  predicate AtTest(checked: bool, b: Builder, c: Config, w: World) {
    c.block == |b.code| && c.pc == 0 && Holds(checked, c, w) && Points(c, b.next, w.head)
  }

  /** Entering a block with one PHI node. */
  lemma EnterPhi(f: Code, c: Config, target: BlockId, k: nat)
    requires target < |f| && |f[target].phis| == 1
    requires var p := f[target].phis[0];
      k < |p.incoming| && p.incoming[k].from == c.block && p.incoming[k].value in c.regs
      && forall i :: 0 <= i < k ==> p.incoming[i].from != c.block
    ensures var p := f[target].phis[0];
      Enter(f, c, target) == c.(block := target, pc := 0, regs := c.regs[p.dst := c.regs[p.incoming[k].value]])
  {
    var p := f[target].phis[0];
    FirstIncoming(p.incoming, c.block, k);
    assert f[target].phis[..0] == [];
    assert EvalPhis(f[target].phis[..0], c.block, c.regs) == c.regs;
  }

  lemma {:induction false} FirstIncoming(incoming: seq<Incoming>, from: BlockId, k: nat)
    requires k < |incoming| && incoming[k].from == from && forall i :: 0 <= i < k ==> incoming[i].from != from
    ensures IncomingFrom(incoming, from) == k
  {
    if k > 0 {
      FirstIncoming(incoming[1..], from, k - 1);
    }
  }

  /** The test: on a zero cell control leaves to the exit block, otherwise it enters the body. */
  lemma TestSteps(f: Code, checked: bool, b: Builder, b2: Builder, c: Config, w: World) returns (c': Config)
    requires 2 <= b.head < b.next && LoopCode(f, b, b2) && AtTest(checked, b, c, w)
    ensures if w.OnTape() then
        && c' == Run(f, 3, c) && c'.pc == 0 && Holds(checked, c', w)
        && (if w.Cell() == 0 then c'.block == |b2.code| && Points(c', b2.next + 2, w.head)
            else c'.block == |b.code| + 1 && Points(c', b.next, w.head))
      else c' == Run(f, 1, c) && c'.status == Trapped && Same(c', w)
  {
    var testbb := |b.code|;
    var t := b2.next;
    c' := Step(f, c);
    Run1(f, c);
    if w.OnTape() {
      var c1 := c';
      assert c1 == Set(c, t, I8(w.Cell()));
      var c2 := Step(f, c1);
      assert c2 == Set(c1, t + 1, I1(w.Cell() == 0));
      RunAdd(f, 1, 1, c);
      Run1(f, c1);
      RunAdd(f, 2, 1, c);
      Run1(f, c2);
      c' := Step(f, c2);
      if w.Cell() == 0 {
        assert f[|b2.code|].phis[0].incoming[0] == Incoming(b.next, testbb);
        EnterPhi(f, c2, |b2.code|, 0);
      } else {
        assert c' == c2.(block := testbb + 1, pc := 0);
      }
    }
  }

  lemma EnterBody(f: Code, checked: bool, b: Builder, b2: Builder, c: Config, w: World) returns (c': Config)
    requires 2 <= b.head < b.next && LoopCode(f, b, b2) && AtTest(checked, b, c, w) && w.OnTape() && w.Cell() != 0
    ensures c' == Run(f, 3, c) && At(checked, OpenLoop(b), c', w)
  {
    c' := TestSteps(f, checked, b, b2, c, w);
  }

  /** Entering the loop from outside, through the first incoming value of its PHI node. */
  lemma EnterLoop(f: Code, checked: bool, b: Builder, b2: Builder, c: Config, w: World)
    requires At(checked, b, c, w) && LoopCode(f, b, b2)
    ensures AtTest(checked, b, Run(f, 1, c), w)
  {
    Run1(f, c);
    EnterPhi(f, c, |b.code|, 0);
  }

  /** Coming back from the end of the body, through the second one. */
  lemma ReenterLoop(f: Code, checked: bool, b: Builder, b2: Builder, c: Config, w: World)
    requires At(checked, b2, c, w) && LoopCode(f, b, b2) && 2 <= b.head < b.next
    ensures AtTest(checked, b, Run(f, 1, c), w)
  {
    Run1(f, c);
    EnterPhi(f, c, |b.code|, 1);
  }

  lemma Reenter(f: Code, checked: bool, b: Builder, b2: Builder, m: nat, c: Config, w: World)
    requires At(checked, b2, Run(f, m, c), w) && LoopCode(f, b, b2) && 2 <= b.head < b.next
    ensures AtTest(checked, b, Run(f, m + 1, c), w)
  {
    ReenterLoop(f, checked, b, b2, Run(f, m, c), w);
    RunAdd(f, m, 1, c);
  }

  // ----- All commands --------------------------------------------------------------------

  ghost predicate Simulated(f: Code, checked: bool, b': Builder, n: nat, c: Config, o: Outcome, fuel: nat) {
    Reached(checked, b', Run(f, n, c), o) && (o.Timeout? ==> n >= fuel)
  }

  lemma Compose(f: Code, checked: bool, b': Builder, m: nat, k: nat, c: Config, o: Outcome, fuel: nat, fuel': nat)
    requires Simulated(f, checked, b', k, Run(f, m, c), o, fuel') && fuel <= m + fuel'
    ensures Simulated(f, checked, b', m + k, c, o, fuel)
  {
    RunAdd(f, m, k, c);
  }

  /** One pass through the loop, from the test block: back to it if the body ends. */
  lemma SimPass(f: Code, checked: bool, b: Builder, body: seq<Cmd>, b2: Builder, b3: Builder, c: Config, w: World, fuel: nat)
    returns (n: nat)
    requires LoopReady(f, checked, b, body, b2, b3) && AtTest(checked, b, c, w) && Epilogue(checked, f)
    requires w.OnTape() && w.Cell() != 0 && fuel > 0
    ensures var o := Eval(checked, body, w, fuel - 1);
      n >= 1 && if o.Done? then AtTest(checked, b, Run(f, n, c), o.w) else Simulated(f, checked, b3, n, c, o, fuel)
    decreases fuel, body, 0
  {
    var m := SimBody(f, checked, b, body, b2, b3, c, w, fuel);
    n := PassResult(f, checked, b, b2, b3, m, c, Eval(checked, body, w, fuel - 1), fuel);
  }

  /** The body of a loop, three steps after its test. */
  lemma PassEnds(f: Code, checked: bool, b2: Builder, b3: Builder, m: nat, c: Config, o: Outcome, fuel: nat)
    requires fuel > 0 && Simulated(f, checked, b2, m, Run(f, 3, c), o, fuel - 1) && Run(f, 3 + m, c) == Run(f, m, Run(f, 3, c))
    ensures o.Done? ==> At(checked, b2, Run(f, 3 + m, c), o.w)
    ensures !o.Done? ==> Simulated(f, checked, b3, 3 + m, c, o, fuel)
  {
  }

  /** What one pass comes to. */
  lemma PassResult(f: Code, checked: bool, b: Builder, b2: Builder, b3: Builder, m: nat, c: Config, o: Outcome, fuel: nat) returns (n: nat)
    requires LoopCode(f, b, b2) && 2 <= b.head < b.next && fuel > 0
    requires Simulated(f, checked, b2, m, Run(f, 3, c), o, fuel - 1)
    ensures n >= 1 && if o.Done? then AtTest(checked, b, Run(f, n, c), o.w) else Simulated(f, checked, b3, n, c, o, fuel)
  {
    n := 3 + m;
    RunAdd(f, 3, m, c);
    PassEnds(f, checked, b2, b3, m, c, o, fuel);
    if o.Done? {
      n := 4 + m;
      Reenter(f, checked, b, b2, 3 + m, c, o.w);
    }
  }

  lemma SimBody(f: Code, checked: bool, b: Builder, body: seq<Cmd>, b2: Builder, b3: Builder, c: Config, w: World, fuel: nat)
    returns (m: nat)
    requires LoopReady(f, checked, b, body, b2, b3) && AtTest(checked, b, c, w) && Epilogue(checked, f)
    requires w.OnTape() && w.Cell() != 0 && fuel > 0
    ensures Simulated(f, checked, b2, m, Run(f, 3, c), Eval(checked, body, w, fuel - 1), fuel - 1)
    decreases fuel - 1, body, 3
  {
    var c3 := EnterBody(f, checked, b, b2, c, w);
    m := SimCmds(f, checked, OpenLoop(b), body, c3, w, fuel - 1);
  }

  /** A loop from its test block on. */
  lemma SimTest(f: Code, checked: bool, b: Builder, body: seq<Cmd>, b2: Builder, b3: Builder, c: Config, w: World, fuel: nat)
    returns (n: nat)
    requires LoopReady(f, checked, b, body, b2, b3) && AtTest(checked, b, c, w) && Epilogue(checked, f)
    ensures Simulated(f, checked, b3, n, c, EvalCmd(checked, Loop(body), w, fuel), fuel)
    decreases fuel, body, 1
  {
    if !w.OnTape() || w.Cell() == 0 {
      var c3 := TestSteps(f, checked, b, b2, c, w);
      n := if w.OnTape() then 3 else 1;
    } else if fuel == 0 {
      n := 0;
    } else {
      n := SimPass(f, checked, b, body, b2, b3, c, w, fuel);
      var o := Eval(checked, body, w, fuel - 1);
      if o.Done? {
        var k := SimTest(f, checked, b, body, b2, b3, Run(f, n, c), o.w, fuel - 1);
        Compose(f, checked, b3, n, k, c, EvalCmd(checked, Loop(body), o.w, fuel - 1), fuel, fuel - 1);
        n := n + k;
      }
    }
  }

  lemma SimLoop(f: Code, checked: bool, b: Builder, body: seq<Cmd>, c: Config, w: World, fuel: nat) returns (n: nat)
    requires At(checked, b, c, w) && Ext(EmitCmd(checked, b, Loop(body)).code, f) && Epilogue(checked, f)
    ensures Simulated(f, checked, EmitCmd(checked, b, Loop(body)), n, c, EvalCmd(checked, Loop(body), w, fuel), fuel)
    decreases fuel, body, 2
  {
    LoopEmitted(f, checked, b, body);
    var b2 := Emit(checked, OpenLoop(b), body);
    EnterLoop(f, checked, b, b2, c, w);
    var k := SimTest(f, checked, b, body, b2, EmitCmd(checked, b, Loop(body)), Run(f, 1, c), w, fuel);
    RunAdd(f, 1, k, c);
    n := 1 + k;
  }

  lemma SimCmd(f: Code, checked: bool, b: Builder, cmd: Cmd, c: Config, w: World, fuel: nat) returns (n: nat)
    requires At(checked, b, c, w) && Ext(EmitCmd(checked, b, cmd).code, f) && Epilogue(checked, f)
    ensures Simulated(f, checked, EmitCmd(checked, b, cmd), n, c, EvalCmd(checked, cmd, w, fuel), fuel)
    decreases fuel, cmd, 1
  {
    match cmd
    case Change(v) => n := SimChange(f, checked, b, v, c, w);
    case Read => n := SimRead(f, checked, b, c, w);
    case Write => n := SimWrite(f, checked, b, c, w);
    case Move(v) => n := SimMove(f, checked, b, v, c, w);
    case Loop(body) => n := SimLoop(f, checked, b, body, c, w, fuel);
  }

  /** Running the code emitted for a sequence of commands. */
  lemma SimCmds(f: Code, checked: bool, b: Builder, cmds: seq<Cmd>, c: Config, w: World, fuel: nat) returns (n: nat)
    requires At(checked, b, c, w) && Ext(Emit(checked, b, cmds).code, f) && Epilogue(checked, f)
    ensures Simulated(f, checked, Emit(checked, b, cmds), n, c, Eval(checked, cmds, w, fuel), fuel)
    decreases fuel, cmds, 2
  {
    if cmds == [] {
      n := 0;
    } else {
      var b1 := EmitCmd(checked, b, cmds[0]);
      EmittedFirst(f, checked, b, cmds);
      n := SimCmd(f, checked, b, cmds[0], c, w, fuel);
      var o := EvalCmd(checked, cmds[0], w, fuel);
      if o.Done? {
        var k := SimCmds(f, checked, b1, cmds[1..], Run(f, n, c), o.w, fuel);
        Compose(f, checked, Emit(checked, b1, cmds[1..]), n, k, c, Eval(checked, cmds[1..], o.w, fuel), fuel, fuel);
        n := n + k;
      } else {
        Stopped(f, checked, b1, Emit(checked, b, cmds), n, c, o, fuel);
      }
    }
  }

  /** What ends early ends the same way whatever is emitted next. */
  lemma Stopped(f: Code, checked: bool, b1: Builder, b2: Builder, n: nat, c: Config, o: Outcome, fuel: nat)
    requires Simulated(f, checked, b1, n, c, o, fuel) && !o.Done?
    ensures Simulated(f, checked, b2, n, c, o, fuel)
  {
  }

  /** Code that holds what is emitted for some commands holds what is emitted for the first. */
  lemma EmittedFirst(f: Code, checked: bool, b: Builder, cmds: seq<Cmd>)
    requires b.Valid() && cmds != [] && Ext(Emit(checked, b, cmds).code, f)
    ensures Ext(EmitCmd(checked, b, cmds[0]).code, f)
    ensures Emit(checked, b, cmds) == Emit(checked, EmitCmd(checked, b, cmds[0]), cmds[1..])
  {
    var b1 := EmitCmd(checked, b, cmds[0]);
    EmitFrame(checked, b1, cmds[1..]);
    FrameExt(b1, Emit(checked, b1, cmds[1..]));
    ExtTrans(b1.code, Emit(checked, b, cmds).code, f);
  }
}
