/** The compiler is correct: the compiled function and the source program do the same
    things, for every balanced program, tape size, input and setting of the bounds flag. */
module BrainFCorrectness {
  import opened BrainFLanguage
  import opened BrainFFusion
  import opened BrainFMachine
  import opened BrainFEmit
  import opened BrainFSimulation

  /** How a run ended, and what it left behind. */
  datatype Result = Result(status: Status, tape: seq<Byte>, input: seq<Byte>, output: seq<Event>)

  function SourceAt(src: string, mem: nat, checked: bool, input: seq<Byte>, n: nat): Ref {
    RefRun(src, checked, n, Ref(0, InitialWorld(mem, input), Running))
  }

  function SourceResult(s: Ref): Result {
    Result(s.status, s.w.tape, s.w.input, s.w.output)
  }

  function CodeResult(c: Config): Result {
    Result(c.status, c.tape, c.input, c.output)
  }

  /** The compiled form of a balanced program. */
  function Compiled(src: string, mem: nat, checked: bool): Code
    requires BalancedFrom(src, 0, 0)
  {
    AcceptedIffBalanced(src);
    Compile(mem, checked, ParseProgram(src).cmds)
  }

  function CodeAt(src: string, mem: nat, checked: bool, storage: seq<Byte>, input: seq<Byte>, n: nat): Config
    requires BalancedFrom(src, 0, 0)
  {
    Run(Compiled(src, mem, checked), n, Start(storage, input))
  }

  ghost predicate SourceYields(src: string, mem: nat, checked: bool, input: seq<Byte>, r: Result) {
    r.status != Running && exists n: nat :: SourceResult(SourceAt(src, mem, checked, input, n)) == r
  }

  ghost predicate CodeYields(src: string, mem: nat, checked: bool, storage: seq<Byte>, input: seq<Byte>, r: Result)
    requires BalancedFrom(src, 0, 0)
  {
    r.status != Running && exists n: nat :: CodeResult(CodeAt(src, mem, checked, storage, input, n)) == r
  }

  // ----- Entry and exit of the compiled function ---------------------------------------

  lemma TerminateExt(b: Builder, t: Term)
    requires b.Valid()
    ensures Ext(b.code, b.Terminate(t))
  {
  }

  lemma CompiledShape(mem: nat, checked: bool, cmds: seq<Cmd>)
    ensures var h := Header(mem, checked);
      var f := Compile(mem, checked, cmds);
      && h.Valid() && Ext(Emit(checked, h, cmds).code, f) && Ext(h.code, f) && Epilogue(checked, f)
  {
    var h := Header(mem, checked);
    var b := Emit(checked, h, cmds);
    var f := Compile(mem, checked, cmds);
    EmitFrame(checked, h, cmds);
    FrameExt(h, b);
    TerminateExt(b, Br(END));
    ExtTrans(h.code, b.code, f);
    assert BlockExt(h.code[END], f[END]);
    if checked {
      assert BlockExt(h.code[ABERROR], f[ABERROR]);
    }
  }

  lemma HeaderSteps(mem: nat, checked: bool, storage: seq<Byte>, input: seq<Byte>)
    requires |storage| == mem
    ensures At(checked, Header(mem, checked), ExecAll(Header(mem, checked).code[ENTRY].insts, Start(storage, input)), InitialWorld(mem, input))
  {
    var c := Start(storage, input);
    var insts := Header(mem, checked).code[ENTRY].insts;
    var c1 := Exec(insts[0], c);
    var c2 := Exec(insts[1], c1);
    assert c2.tape == InitialWorld(mem, input).tape;
    var c3 := Exec(insts[2], c2);
    assert insts[1..][0] == insts[1] && insts[1..][1..] == insts[2..];
    assert ExecAll(insts, c) == ExecAll(insts[1..], c1) == ExecAll(insts[2..], c2);
    if checked {
      assert insts[2..] == [insts[2], insts[3]] && insts[2..][1..] == [insts[3]];
      assert ExecAll(insts[2..], c2) == ExecAll([insts[3]], c3) == Exec(insts[3], c3);
    } else {
      assert insts[2..] == [insts[2]];
      assert ExecAll(insts[2..], c2) == Exec(insts[2], c2);
    }
  }

  lemma EnterCompiled(mem: nat, checked: bool, cmds: seq<Cmd>, storage: seq<Byte>, input: seq<Byte>) returns (n: nat)
    requires |storage| == mem
    ensures At(checked, Header(mem, checked), Run(Compile(mem, checked, cmds), n, Start(storage, input)), InitialWorld(mem, input))
  {
    var h := Header(mem, checked);
    var f := Compile(mem, checked, cmds);
    var insts := h.code[ENTRY].insts;
    CompiledShape(mem, checked, cmds);
    assert BlockExt(h.code[ENTRY], f[ENTRY]);
    n := |insts|;
    assert f[ENTRY].insts[0..n] == insts;
    Straight(f, ENTRY, 0, insts, Start(storage, input));
    HeaderSteps(mem, checked, storage, input);
  }

  /** Where the commands end, the compiled function frees the tape and returns. */
  lemma LeaveCompiled(mem: nat, checked: bool, cmds: seq<Cmd>, c: Config, w: World)
    requires At(checked, Emit(checked, Header(mem, checked), cmds), c, w)
    ensures var c' := Run(Compile(mem, checked, cmds), 3, c); c'.status == Returned && Same(c', w) && !c'.live
  {
    var f := Compile(mem, checked, cmds);
    CompiledShape(mem, checked, cmds);
    var c1 := Step(f, c);
    assert c1 == c.(block := END, pc := 0);
    NormalExit(f, c1, w);
    RunAdd(f, 1, 2, c);
    Run1(f, c);
  }

  // ----- Both sides, with a common budget --------------------------------------------------

  /** What both sides have in common after enough steps: both have ended in the same way,
      or both are still running, after at least fuel steps, with the same output; a compiled
      function that has returned has freed its tape. */
  predicate InStep(s: Ref, c: Config, n: nat, m: nat, fuel: nat) {
    && s.status == c.status && Same(c, s.w)
    && (s.status == Running ==> n >= fuel && m >= fuel)
    && (c.status == Returned ==> !c.live)
  }

  /** The compiled function from its entry to the end of the commands. */
  lemma CodeSimulates(mem: nat, checked: bool, cmds: seq<Cmd>, storage: seq<Byte>, input: seq<Byte>, fuel: nat) returns (m: nat)
    requires |storage| == mem
    ensures Simulated(Compile(mem, checked, cmds), checked, Emit(checked, Header(mem, checked), cmds), m, Start(storage, input),
                      Eval(checked, cmds, InitialWorld(mem, input), fuel), fuel)
  {
    var f := Compile(mem, checked, cmds);
    CompiledShape(mem, checked, cmds);
    var m0 := EnterCompiled(mem, checked, cmds, storage, input);
    var w := InitialWorld(mem, input);
    var m1 := SimCmds(f, checked, Header(mem, checked), cmds, Run(f, m0, Start(storage, input)), w, fuel);
    Compose(f, checked, Emit(checked, Header(mem, checked), cmds), m0, m1, Start(storage, input), Eval(checked, cmds, w, fuel), fuel, fuel);
    m := m0 + m1;
  }

  /** The compiled function's side of an outcome. */
  lemma CodeReaches(mem: nat, checked: bool, cmds: seq<Cmd>, storage: seq<Byte>, input: seq<Byte>, fuel: nat) returns (m: nat)
    requires |storage| == mem
    ensures var c := Run(Compile(mem, checked, cmds), m, Start(storage, input));
      match Eval(checked, cmds, InitialWorld(mem, input), fuel)
      case Done(w) => c.status == Returned && Same(c, w) && !c.live
      case Reported(w) => c.status == Returned && Same(c, w) && !c.live
      case Undefined(w) => c.status == Trapped && Same(c, w)
      case Timeout(w) => c.status == Running && Same(c, w) && m >= fuel
  {
    m := CodeSimulates(mem, checked, cmds, storage, input, fuel);
    var o := Eval(checked, cmds, InitialWorld(mem, input), fuel);
    if o.Done? {
      var f := Compile(mem, checked, cmds);
      LeaveCompiled(mem, checked, cmds, Run(f, m, Start(storage, input)), o.w);
      RunAdd(f, m, 3, Start(storage, input));
      m := m + 3;
    }
  }

  /** The source program's side of the same outcome. */
  lemma SourceReaches(src: string, mem: nat, checked: bool, input: seq<Byte>, fuel: nat) returns (n: nat)
    requires ParseProgram(src).Parsed?
    ensures var s := SourceAt(src, mem, checked, input, n);
      match Eval(checked, ParseProgram(src).cmds, InitialWorld(mem, input), fuel)
      case Done(w) => s.status == Returned && s.w == w
      case Reported(w) => s.status == Returned && s.w == w
      case Undefined(w) => s.status == Trapped && s.w == w
      case Timeout(w) => s.status == Running && s.w == w && n >= fuel
  {
    var w := InitialWorld(mem, input);
    n := Simulate(src, checked, 0, w, fuel);
    var o := Eval(checked, ParseProgram(src).cmds, w, fuel);
    if o.Done? {
      RefRunAdd(src, checked, n, 1, Ref(0, w, Running));
      var s := Ref(|src|, o.w, Running);
      assert RefRun(src, checked, 1, s) == RefRun(src, checked, 0, RefStep(src, checked, s));
      n := n + 1;
    }
  }

  lemma RunInStep(src: string, mem: nat, checked: bool, storage: seq<Byte>, input: seq<Byte>, fuel: nat) returns (n: nat, m: nat)
    requires BalancedFrom(src, 0, 0) && |storage| == mem
    ensures InStep(SourceAt(src, mem, checked, input, n), CodeAt(src, mem, checked, storage, input, m), n, m, fuel)
  {
    AcceptedIffBalanced(src);
    n := SourceReaches(src, mem, checked, input, fuel);
    m := CodeReaches(mem, checked, ParseProgram(src).cmds, storage, input, fuel);
  }

  // ----- Main results ------------------------------------------------------------------------

  lemma SourceStays(src: string, mem: nat, checked: bool, input: seq<Byte>, k: nat, n: nat)
    requires k <= n
    ensures SourceAt(src, mem, checked, input, k).status != Running
        ==> SourceAt(src, mem, checked, input, n) == SourceAt(src, mem, checked, input, k)
    ensures SourceAt(src, mem, checked, input, k).w.output <= SourceAt(src, mem, checked, input, n).w.output
  {
    var s0 := Ref(0, InitialWorld(mem, input), Running);
    RefRunAdd(src, checked, k, n - k, s0);
    var s := SourceAt(src, mem, checked, input, k);
    if s.status != Running {
      RefHaltedStays(src, checked, n - k, s);
    }
    RefOutputGrows(src, checked, n - k, s);
  }

  lemma CodeStays(src: string, mem: nat, checked: bool, storage: seq<Byte>, input: seq<Byte>, k: nat, n: nat)
    requires BalancedFrom(src, 0, 0) && k <= n
    ensures CodeAt(src, mem, checked, storage, input, k).status != Running
        ==> CodeAt(src, mem, checked, storage, input, n) == CodeAt(src, mem, checked, storage, input, k)
    ensures CodeAt(src, mem, checked, storage, input, k).output <= CodeAt(src, mem, checked, storage, input, n).output
  {
    var f := Compiled(src, mem, checked);
    RunAdd(f, k, n - k, Start(storage, input));
    var c := CodeAt(src, mem, checked, storage, input, k);
    if c.status != Running {
      HaltedStays(f, n - k, c);
    }
    OutputGrows(f, n - k, c);
  }

  /** Two positions of one source run that have both ended are the same. */
  lemma SourceDecided(src: string, mem: nat, checked: bool, input: seq<Byte>, k: nat, n: nat)
    requires SourceAt(src, mem, checked, input, k).status != Running
    requires SourceAt(src, mem, checked, input, n).status != Running || n >= k
    ensures SourceAt(src, mem, checked, input, n) == SourceAt(src, mem, checked, input, k)
  {
    if k <= n {
      SourceStays(src, mem, checked, input, k, n);
    } else {
      SourceStays(src, mem, checked, input, n, k);
    }
  }

  lemma CodeDecided(src: string, mem: nat, checked: bool, storage: seq<Byte>, input: seq<Byte>, k: nat, n: nat)
    requires BalancedFrom(src, 0, 0)
    requires CodeAt(src, mem, checked, storage, input, k).status != Running
    requires CodeAt(src, mem, checked, storage, input, n).status != Running || n >= k
    ensures CodeAt(src, mem, checked, storage, input, n) == CodeAt(src, mem, checked, storage, input, k)
  {
    if k <= n {
      CodeStays(src, mem, checked, storage, input, k, n);
    } else {
      CodeStays(src, mem, checked, storage, input, n, k);
    }
  }

  /** Compiler correctness for runs that end: the compiled function ends with a result
      exactly when the source program ends with it.  So it also diverges exactly when
      the source does, and it is never Stuck. */
  lemma CompilerCorrect(src: string, mem: nat, checked: bool, storage: seq<Byte>, input: seq<Byte>, r: Result)
    requires BalancedFrom(src, 0, 0) && |storage| == mem
    ensures SourceYields(src, mem, checked, input, r) <==> CodeYields(src, mem, checked, storage, input, r)
  {
    if SourceYields(src, mem, checked, input, r) {
      var k: nat :| SourceResult(SourceAt(src, mem, checked, input, k)) == r;
      var n, m := RunInStep(src, mem, checked, storage, input, k);
      SourceDecided(src, mem, checked, input, k, n);
      assert CodeResult(CodeAt(src, mem, checked, storage, input, m)) == r;
    }
    if CodeYields(src, mem, checked, storage, input, r) {
      var k: nat :| CodeResult(CodeAt(src, mem, checked, storage, input, k)) == r;
      var n, m := RunInStep(src, mem, checked, storage, input, k);
      CodeDecided(src, mem, checked, storage, input, k, m);
      assert SourceResult(SourceAt(src, mem, checked, input, n)) == r;
    }
  }

  /** A run of the compiled function that has returned has freed the tape, whether it ended
      normally or at a bounds check; since freeing it a second time traps, it did so once. */
  lemma ReturnedIsFreed(src: string, mem: nat, checked: bool, storage: seq<Byte>, input: seq<Byte>, k: nat)
    requires BalancedFrom(src, 0, 0) && |storage| == mem
    requires CodeAt(src, mem, checked, storage, input, k).status == Returned
    ensures !CodeAt(src, mem, checked, storage, input, k).live
  {
    var n, m := RunInStep(src, mem, checked, storage, input, k);
    CodeDecided(src, mem, checked, storage, input, k, m);
  }

  /** Runs that do not end write the same: everything one side has written at some point,
      the other side has written at some point too. */
  lemma OutputsAgree(src: string, mem: nat, checked: bool, storage: seq<Byte>, input: seq<Byte>, k: nat)
    requires BalancedFrom(src, 0, 0) && |storage| == mem
    ensures exists m: nat :: SourceAt(src, mem, checked, input, k).w.output <= CodeAt(src, mem, checked, storage, input, m).output
    ensures exists n: nat :: CodeAt(src, mem, checked, storage, input, k).output <= SourceAt(src, mem, checked, input, n).w.output
  {
    var n, m := RunInStep(src, mem, checked, storage, input, k);
    var s := SourceAt(src, mem, checked, input, n);
    var c := CodeAt(src, mem, checked, storage, input, m);
    if k <= n {
      SourceStays(src, mem, checked, input, k, n);
    } else {
      SourceStays(src, mem, checked, input, n, k);
    }
    assert SourceAt(src, mem, checked, input, k).w.output <= c.output;
    if k <= m {
      CodeStays(src, mem, checked, storage, input, k, m);
    } else {
      CodeStays(src, mem, checked, storage, input, m, k);
    }
    assert CodeAt(src, mem, checked, storage, input, k).output <= s.w.output;
  }

  // ----- Bounds checks ------------------------------------------------------------------------

  /** With bounds checks, evaluation that starts on the tape stays on it. */
  lemma {:induction false} CheckedStaysOnTape(cmds: seq<Cmd>, w: World, fuel: nat)
    requires w.OnTape()
    ensures var o := Eval(true, cmds, w, fuel); !o.Undefined? && (o.Done? ==> o.w.OnTape())
    decreases fuel, cmds, 1
  {
    if cmds != [] {
      CheckedCmdStaysOnTape(cmds[0], w, fuel);
      var o := EvalCmd(true, cmds[0], w, fuel);
      if o.Done? {
        CheckedStaysOnTape(cmds[1..], o.w, fuel);
      }
    }
  }

  lemma {:induction false} CheckedCmdStaysOnTape(cmd: Cmd, w: World, fuel: nat)
    requires w.OnTape()
    ensures var o := EvalCmd(true, cmd, w, fuel); !o.Undefined? && (o.Done? ==> o.w.OnTape())
    decreases fuel, cmd, 0
  {
    match cmd
    case Loop(body) =>
      if w.Cell() != 0 && fuel > 0 {
        CheckedStaysOnTape(body, w, fuel - 1);
        var o := Eval(true, body, w, fuel - 1);
        if o.Done? {
          CheckedCmdStaysOnTape(cmd, o.w, fuel - 1);
        }
      }
    case _ =>
  }

  /** If evaluation goes wrong for no amount of fuel, no step of the compiled function does. */
  lemma NeverWrong(src: string, mem: nat, storage: seq<Byte>, input: seq<Byte>, k: nat)
    requires BalancedFrom(src, 0, 0) && |storage| == mem
    requires ParseProgram(src).Parsed? && !Eval(true, ParseProgram(src).cmds, InitialWorld(mem, input), k).Undefined?
    ensures CodeAt(src, mem, true, storage, input, k).status in {Running, Returned}
  {
    var cmds := ParseProgram(src).cmds;
    var m := CodeReaches(mem, true, cmds, storage, input, k);
    assert CodeAt(src, mem, true, storage, input, m) == Run(Compile(mem, true, cmds), m, Start(storage, input));
    if CodeAt(src, mem, true, storage, input, k).status != Running {
      CodeDecided(src, mem, true, storage, input, k, m);
    }
  }

  /** With bounds checks and a non-empty tape, no run of the compiled function, at any
      step, has gone wrong: every load and store was inside the tape, every register was
      written before it was read. */
  lemma CheckedRunsAreSafe(src: string, mem: nat, storage: seq<Byte>, input: seq<Byte>, k: nat)
    requires BalancedFrom(src, 0, 0) && |storage| == mem && mem > 0
    ensures CodeAt(src, mem, true, storage, input, k).status in {Running, Returned}
  {
    AcceptedIffBalanced(src);
    CheckedStaysOnTape(ParseProgram(src).cmds, InitialWorld(mem, input), k);
    NeverWrong(src, mem, storage, input, k);
  }

  /** The first command from position i on, if there is one, is a head move. */
  predicate MovesFirst(src: string, i: nat)
    decreases |src| - i
  {
    i >= |src| || IsMove(src[i]) || (!IsCommand(src[i]) && MovesFirst(src, i + 1))
  }

  lemma {:induction false} MovesFirstParsed(src: string, i: nat)
    requires i <= |src| && ParseSeq(src, i).Parsed? && ParseSeq(src, i).pos == |src|
    ensures MovesFirst(src, i) <==> ParseSeq(src, i).cmds == [] || ParseSeq(src, i).cmds[0].Move?
    decreases |src| - i
  {
    if i < |src| && !IsCommand(src[i]) {
      MovesFirstParsed(src, i + 1);
    }
  }

  /** Bounds checks make the compiled function safe if and only if the tape has a cell or the
      program starts with a head move: with no cells at all the head starts outside, and only
      moves are checked. */
  lemma CheckedRunsExact(src: string, mem: nat, storage: seq<Byte>, input: seq<Byte>)
    requires BalancedFrom(src, 0, 0) && |storage| == mem
    ensures (forall k: nat :: CodeAt(src, mem, true, storage, input, k).status in {Running, Returned})
      <==> mem > 0 || MovesFirst(src, 0)
  {
    AcceptedIffBalanced(src);
    var cmds := ParseProgram(src).cmds;
    MovesFirstParsed(src, 0);
    if mem > 0 {
      forall k: nat ensures CodeAt(src, mem, true, storage, input, k).status in {Running, Returned} {
        CheckedRunsAreSafe(src, mem, storage, input, k);
      }
    } else if cmds == [] || cmds[0].Move? {
      forall k: nat ensures CodeAt(src, mem, true, storage, input, k).status in {Running, Returned} {
        NeverWrong(src, mem, storage, input, k);
      }
    } else {
      var m := CodeReaches(mem, true, cmds, storage, input, 0);
      assert CodeAt(src, mem, true, storage, input, m).status == Trapped;
    }
  }

  /** The smallest program that goes wrong on a tape without cells. */
  lemma EmptyTapeIsNotChecked()
    ensures BalancedFrom("+", 0, 0)
    ensures exists k: nat :: CodeAt("+", 0, true, [], [], k).status == Trapped
  {
    assert BalancedFrom("+", 1, 0);
    assert ParseSeq("+", 1) == Parsed([], 1);
    assert RunEnd("+", 1, false) == 1 && RunSum("+", 1, false) == 0;
    assert ParseSeq("+", 0) == Parsed([Change(1)], 1);
    var m := CodeReaches(0, true, [Change(1)], [], [], 0);
    assert EvalCmd(true, Change(1), InitialWorld(0, []), 0) == Undefined(InitialWorld(0, []));
    assert CodeAt("+", 0, true, [], [], m).status == Trapped;
  }
}
