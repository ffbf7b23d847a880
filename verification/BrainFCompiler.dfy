/** The compiler itself, as the object that updates its insertion point, its current
    head register and its read position while it goes over the text once. */
module BrainFCompiler {
  import opened Wrappers
  import opened BrainFLanguage
  import opened BrainFMachine
  import opened BrainFEmit

  datatype Symbol = SymNone | SymRead | SymWrite | SymMove | SymChange | SymLoop | SymEndLoop | SymEof

  // ----- What the symbols read so far stand for -----------------------------------------

  /** The command of a complete symbol. */
  function CmdOf(sym: Symbol, value: int): Cmd {
    match sym
    case SymMove => Move(value)
    case SymChange => Change(value)
    case SymWrite => Write
    case _ => Read
  }

  /** A loop whose '[' has been read. */
  function LoopFrom(src: string, pos: nat): ParseResult
    requires pos <= |src|
  {
    var body := ParseSeq(src, pos);
    if body.Unbalanced? || body.pos == |src| then Unbalanced
    else Prepend(Loop(body.cmds), ParseSeq(src, body.pos + 1))
  }

  /** The commands still to come when sym has been read up to pos; a run may still grow. */
  function After(src: string, sym: Symbol, value: int, pos: nat): ParseResult
    requires pos <= |src|
  {
    match sym
    case SymNone => ParseSeq(src, pos)
    case SymRead => Prepend(Read, ParseSeq(src, pos))
    case SymWrite => Prepend(Write, ParseSeq(src, pos))
    case SymMove => Prepend(Move(value + RunSum(src, pos, true)), ParseSeq(src, RunEnd(src, pos, true)))
    case SymChange => Prepend(Change(value + RunSum(src, pos, false)), ParseSeq(src, RunEnd(src, pos, false)))
    case SymLoop => LoopFrom(src, pos)
    case SymEndLoop => Parsed([], if pos == 0 then 0 else pos - 1)
    case SymEof => Parsed([], pos)
  }

  /** The same with one symbol of lookahead: a next symbol completes the current one. */
  function Waiting(src: string, cur: Symbol, value: int, next: Symbol, nextValue: int, pos: nat): ParseResult
    requires pos <= |src|
  {
    if next == SymNone then After(src, cur, value, pos)
    else Prepend(CmdOf(cur, value), After(src, next, nextValue, pos))
  }

  function PrependAll(cmds: seq<Cmd>, r: ParseResult): ParseResult {
    if r.Unbalanced? then r else Parsed(cmds + r.cmds, r.pos)
  }

  lemma PrependLast(cmds: seq<Cmd>, cmd: Cmd, r: ParseResult)
    ensures PrependAll(cmds, Prepend(cmd, r)) == PrependAll(cmds + [cmd], r)
  {
    if r.Parsed? {
      assert cmds + ([cmd] + r.cmds) == (cmds + [cmd]) + r.cmds;
    }
  }

  lemma {:induction false} EmitLast(checked: bool, b: Builder, cmds: seq<Cmd>, cmd: Cmd)
    requires b.Valid()
    ensures Emit(checked, b, cmds + [cmd]) == EmitCmd(checked, Emit(checked, b, cmds), cmd)
    decreases |cmds|
  {
    if cmds == [] {
      assert ([cmd])[1..] == [];
      assert Emit(checked, b, [cmd]) == Emit(checked, EmitCmd(checked, b, cmd), []);
      assert cmds + [cmd] == [cmd];
    } else {
      assert (cmds + [cmd])[1..] == cmds[1..] + [cmd];
      EmitLast(checked, EmitCmd(checked, b, cmds[0]), cmds[1..], cmd);
    }
  }

  predicate RunSymbol(s: Symbol) { s == SymNone || s == SymMove || s == SymChange }

  /** Emission and reading agree: b has emitted the commands done, and pending is what is
      left of the text that starts at start. */
  ghost predicate Progress(src: string, start: nat, checked: bool, b0: Builder, b: Builder, done: seq<Cmd>, pending: ParseResult)
    requires start <= |src| && b0.Valid()
  {
    b == Emit(checked, b0, done) && ParseSeq(src, start) == PrependAll(done, pending)
  }

  lemma ProgressStep(src: string, start: nat, checked: bool, b0: Builder, b: Builder, done: seq<Cmd>, cmd: Cmd, rest: ParseResult)
    requires start <= |src| && b0.Valid() && b.Valid()
    requires Progress(src, start, checked, b0, b, done, Prepend(cmd, rest))
    ensures Progress(src, start, checked, b0, EmitCmd(checked, b, cmd), done + [cmd], rest)
  {
    EmitLast(checked, b0, done, cmd);
    PrependLast(done, cmd, rest);
  }

  /** The symbols after reading one character of a run of kind sym. */
  function AfterRun(src: string, cur: Symbol, value: int, sym: Symbol, direction: int, pos: nat): ParseResult
    requires pos <= |src|
  {
    if cur == sym then After(src, sym, value + direction, pos)
    else if cur == SymNone then After(src, sym, direction, pos)
    else Waiting(src, cur, value, sym, direction, pos)
  }

  lemma ProgressEnd(src: string, start: nat, checked: bool, b0: Builder, b: Builder, done: seq<Cmd>, pos: nat)
    requires start <= |src| && b0.Valid() && Progress(src, start, checked, b0, b, done, Parsed([], pos))
    ensures ParseSeq(src, start) == Parsed(done, pos) && b == Emit(checked, b0, done)
  {
    assert done + [] == done;
  }

  /** What reading one more character means, while the current symbol may still grow. */
  lemma ReadOne(src: string, cur: Symbol, value: int, pos: nat)
    requires pos < |src| && RunSymbol(cur)
    ensures var c := src[pos];
      var now := After(src, cur, value, pos);
      && (!IsCommand(c) ==> now == After(src, cur, value, pos + 1))
      && (IsChange(c) ==> now == AfterRun(src, cur, value, SymChange, Delta(false, c), pos + 1))
      && (IsMove(c) ==> now == AfterRun(src, cur, value, SymMove, Delta(true, c), pos + 1))
  {
    if !IsCommand(src[pos]) {
      ReadOther(src, cur, value, pos);
    } else if IsChange(src[pos]) {
      ReadChange(src, cur, value, pos);
    } else if IsMove(src[pos]) {
      ReadMove(src, cur, value, pos);
    }
  }

  lemma ReadOther(src: string, cur: Symbol, value: int, pos: nat)
    requires pos < |src| && RunSymbol(cur) && !IsCommand(src[pos])
    ensures After(src, cur, value, pos) == After(src, cur, value, pos + 1)
  {
  }

  lemma ReadChange(src: string, cur: Symbol, value: int, pos: nat)
    requires pos < |src| && RunSymbol(cur) && IsChange(src[pos])
    ensures After(src, cur, value, pos) == AfterRun(src, cur, value, SymChange, Delta(false, src[pos]), pos + 1)
  {
  }

  lemma ReadMove(src: string, cur: Symbol, value: int, pos: nat)
    requires pos < |src| && RunSymbol(cur) && IsMove(src[pos])
    ensures After(src, cur, value, pos) == AfterRun(src, cur, value, SymMove, Delta(true, src[pos]), pos + 1)
  {
  }

  /** The symbol of a command that forms no runs. */
  function SingleSymbol(c: char): Symbol {
    if c == ',' then SymRead else if c == '.' then SymWrite else if c == '[' then SymLoop else SymEndLoop
  }

  lemma ReadSingle(src: string, cur: Symbol, value: int, pos: nat, x: int)
    requires pos < |src| && RunSymbol(cur) && IsCommand(src[pos]) && !IsMove(src[pos]) && !IsChange(src[pos])
    ensures After(src, cur, value, pos) ==
      if cur == SymNone then After(src, SingleSymbol(src[pos]), value, pos + 1)
      else Waiting(src, cur, value, SingleSymbol(src[pos]), x, pos + 1)
  {
  }

  /** A measure of the text and symbols still to be handled. */
  function Pending(left: nat, cur: Symbol, next: Symbol): nat {
    3 * left + (if cur == SymEof then 0 else if cur == SymNone then 1 else 2)
      + (if next == SymEof || next == SymNone then 0 else 2)
  }

  /** What is known of the two symbols once reading stops at pos. */
  predicate Symbols(cur: Symbol, next: Symbol, text: string, pos: nat)
    requires pos <= |text|
  {
    && cur != SymNone && ((cur == SymMove || cur == SymChange) <==> next != SymNone)
    && (cur == SymEndLoop || next == SymEndLoop ==> pos > 0 && text[pos - 1] == ']')
    && (cur == SymEof || next == SymEof ==> pos == |text|)
  }

  class BrainF {
    const memtotal: nat
    const checked: bool
    const text: string
    var pos: nat
    var code: Code
    var insertBlock: BlockId
    var curhead: Reg
    var nextreg: Reg

    function State(): Builder
      reads this`code, this`insertBlock, this`curhead, this`nextreg
    {
      Builder(code, insertBlock, curhead, nextreg)
    }

    /** The function header: everything outside the compiled commands. */
    constructor (text: string, mem: nat, checked: bool)
      ensures this.text == text && memtotal == mem && this.checked == checked && pos == 0
      ensures State() == Header(mem, checked)
    {
      this.text, this.memtotal, this.checked, this.pos := text, mem, checked, 0;
      var entry := [Malloc(ARR, mem), Memset(ARR, mem)];
      if checked {
        entry := entry + [Gep(ARRMAX, ARR, mem)];
      }
      entry := entry + [Gep(2, ARR, mem / 2)];
      var blocks := [Block([], entry, Open), Block([], [Free(ARR)], RetVoid)];
      if checked {
        blocks := blocks + [Block([], [Puts(OFF_TAPE)], Br(END))];
      }
      code, insertBlock, curhead, nextreg := blocks, ENTRY, 2, 3;
      new;
      assert entry == Header(mem, checked).code[ENTRY].insts;
    }

    /** Append one instruction at the insertion point. */
    method Create(i: Inst)
      requires State().Valid()
      modifies this`code
      ensures State() == old(State()).Append(i)
    {
      code := code[insertBlock := code[insertBlock].(insts := code[insertBlock].insts + [i])];
    }

    /** End the current block. */
    method CreateTerm(t: Term)
      requires State().Valid()
      modifies this`code
      ensures code == old(State()).Terminate(t)
    {
      code := code[insertBlock := code[insertBlock].(term := t)];
    }

    method CreateBlock() returns (bb: BlockId)
      modifies this`code
      ensures bb == |old(code)| && code == old(code) + [Block([], [], Open)]
    {
      bb := |code|;
      code := code + [Block([], [], Open)];
    }

    method WriteRead()
      requires State().Valid()
      modifies this`code, this`nextreg
      ensures State() == EmitCmd(checked, old(State()), Read)
    {
      var tape0 := nextreg;
      Create(GetCharCall(tape0));
      Create(TruncI8(tape0 + 1, tape0));
      Create(Store(tape0 + 1, curhead));
      nextreg := nextreg + 2;
    }

    method WriteWrite()
      requires State().Valid()
      modifies this`code, this`nextreg
      ensures State() == EmitCmd(checked, old(State()), Write)
    {
      var tape0 := nextreg;
      Create(Load(tape0, curhead));
      Create(SExtI32(tape0 + 1, tape0));
      Create(PutCharCall(tape0 + 1));
      nextreg := nextreg + 2;
    }

    method WriteChange(curvalue: int)
      requires State().Valid()
      modifies this`code, this`nextreg
      ensures State() == EmitCmd(checked, old(State()), Change(curvalue))
    {
      var tape0 := nextreg;
      Create(Load(tape0, curhead));
      Create(AddI8(tape0 + 1, tape0, curvalue));
      Create(Store(tape0 + 1, curhead));
      nextreg := nextreg + 2;
    }

    method WriteMove(curvalue: int)
      requires State().Valid()
      modifies this`code, this`insertBlock, this`curhead, this`nextreg
      ensures State() == EmitCmd(checked, old(State()), Move(curvalue))
    {
      Create(Gep(nextreg, curhead, curvalue));
      curhead, nextreg := nextreg, nextreg + 1;
      if checked {
        var test := nextreg;
        Create(ICmpUGE(test, curhead, ARRMAX));
        Create(ICmpULT(test + 1, curhead, ARR));
        Create(OrI1(test + 2, test, test + 1));
        var nextbb := |code|;
        CreateTerm(CondBr(test + 2, ABERROR, nextbb));
        var _ := CreateBlock();
        insertBlock, nextreg := nextbb, test + 3;
      }
    }

    /** The start of a loop: a test block with half a PHI node, and the block of the body. */
    method BeginLoop() returns (phi: Reg, bodybb: BlockId, testbb: BlockId)
      requires State().Valid()
      modifies this`code, this`insertBlock, this`curhead, this`nextreg
      ensures State() == OpenLoop(old(State()))
      ensures phi == old(nextreg) && testbb == |old(code)| && bodybb == testbb + 1
    {
      testbb := |code|;
      CreateTerm(Br(testbb));
      var bb0 := insertBlock;
      var _ := CreateBlock();
      bodybb := CreateBlock();
      phi := nextreg;
      nextreg := nextreg + 1;
      code := code[testbb := Block([Phi(phi, [Incoming(curhead, bb0)])], [], Open)];
      insertBlock, curhead := bodybb, phi;
    }

    /** The end of a loop: back to the test, which is completed, and on to a new block. */
    method EndLoop(phi: Reg, oldbb: BlockId, testbb: BlockId)
      requires State().Valid() && testbb < |code|
      modifies this`code, this`insertBlock, this`curhead, this`nextreg
      ensures State() == CloseLoop(old(State()), phi, testbb, oldbb)
    {
      CreateTerm(Br(testbb));
      var test := code[testbb];
      test := test.(phis := AddIncoming(test.phis, phi, Incoming(curhead, insertBlock)));
      test := test.(insts := test.insts + [Load(nextreg, phi), ICmpEqZero(nextreg + 1, nextreg)]);
      var exitbb := |code|;
      test := test.(term := CondBr(nextreg + 1, exitbb, oldbb));
      code := code[testbb := test] + [Block([Phi(nextreg + 2, [Incoming(phi, testbb)])], [], Open)];
      insertBlock, curhead, nextreg := exitbb, nextreg + 2, nextreg + 3;
    }

    /** The reading loop: extends the run in cursym until a symbol of another kind, or the
        end of the text, has been read; that becomes the next symbol, or the current one
        if there was none. */
    method ReadSymbols(sym: Symbol, value: int) returns (cursym: Symbol, curvalue: int, nextsym: Symbol, nextvalue: int)
      requires pos <= |text| && RunSymbol(sym)
      modifies this`pos
      ensures old(pos) <= pos <= |text|
      ensures Waiting(text, cursym, curvalue, nextsym, nextvalue, pos) == After(text, sym, value, old(pos))
      ensures Symbols(cursym, nextsym, text, pos)
      ensures sym == SymNone && cursym != SymEof ==> old(pos) < pos
      ensures Pending(|text| - pos, cursym, nextsym) + (if sym == SymNone then 1 else 0) <= Pending(|text| - old(pos), sym, SymNone)
    {
      cursym, curvalue, nextsym, nextvalue := sym, value, SymNone, 0;
      ghost var start, meaning := pos, After(text, sym, value, pos);
      var reading := true;
      while reading
        invariant start <= pos <= |text| && Waiting(text, cursym, curvalue, nextsym, nextvalue, pos) == meaning
        invariant if reading then RunSymbol(cursym) && nextsym == SymNone else Symbols(cursym, nextsym, text, pos)
        invariant pos == start ==> cursym == if reading || sym != SymNone then sym else SymEof
        invariant Pending(|text| - pos, cursym, nextsym) + (if start < pos then 1 else 0) <= Pending(|text| - start, sym, SymNone)
        decreases |text| - pos, reading
      {
        if pos == |text| {
          if cursym == SymNone { cursym := SymEof; } else { nextsym := SymEof; }
          reading := false;
        } else {
          cursym, curvalue, nextsym, nextvalue, reading := ReadCharacter(cursym, curvalue);
        }
      }
    }

    /** One character: it extends the run, starts one, or becomes the next symbol. */
    method ReadCharacter(cur: Symbol, value: int) returns (cursym: Symbol, curvalue: int, nextsym: Symbol, nextvalue: int, reading: bool)
      requires pos < |text| && RunSymbol(cur)
      modifies this`pos
      ensures pos == old(pos) + 1
      ensures Waiting(text, cursym, curvalue, nextsym, nextvalue, pos) == After(text, cur, value, old(pos))
      ensures if reading then RunSymbol(cursym) && nextsym == SymNone else Symbols(cursym, nextsym, text, pos)
      ensures Pending(|text| - pos, cursym, nextsym) < Pending(|text| - old(pos), cur, SymNone)
    {
      cursym, curvalue, nextsym, nextvalue, reading := cur, value, SymNone, 0, true;
      var c := text[pos];
      ReadOne(text, cursym, curvalue, pos);
      if IsCommand(c) && !IsMove(c) && !IsChange(c) {
        ReadSingle(text, cursym, curvalue, pos, nextvalue);
      }
      pos := pos + 1;
      if c == '-' || c == '+' {
        var direction := if c == '-' then -1 else 1;
        if cursym == SymChange {
          curvalue := curvalue + direction;
        } else if cursym == SymNone {
          cursym, curvalue := SymChange, direction;
        } else {
          nextsym, nextvalue, reading := SymChange, direction, false;
        }
      } else if c == '<' || c == '>' {
        var direction := if c == '<' then -1 else 1;
        if cursym == SymMove {
          curvalue := curvalue + direction;
        } else if cursym == SymNone {
          cursym, curvalue := SymMove, direction;
        } else {
          nextsym, nextvalue, reading := SymMove, direction, false;
        }
      } else if c == ',' || c == '.' || c == '[' || c == ']' {
        if cursym == SymNone { cursym := SingleSymbol(c); } else { nextsym := SingleSymbol(c); }
        reading := false;
      }
    }

    /** Emits one symbol other than a bracket. */
    method WriteSymbol(cursym: Symbol, curvalue: int)
      requires State().Valid() && cursym in {SymRead, SymWrite, SymMove, SymChange}
      modifies this`code, this`insertBlock, this`curhead, this`nextreg
      ensures State() == EmitCmd(checked, old(State()), CmdOf(cursym, curvalue))
    {
      if cursym == SymRead {
        WriteRead();
      } else if cursym == SymWrite {
        WriteWrite();
      } else if cursym == SymMove {
        WriteMove(curvalue);
      } else {
        WriteChange(curvalue);
      }
    }

    /** Emits a loop whose '[' has been read, by a recursive call for its body. */
    method WriteLoop() returns (ok: bool)
      requires pos <= |text| && State().Valid()
      modifies this`pos, this`code, this`insertBlock, this`curhead, this`nextreg
      ensures var body := ParseSeq(text, old(pos));
        && (ok <==> body.Parsed? && body.pos < |text|)
        && (ok ==> pos == body.pos + 1 && State() == EmitCmd(checked, old(State()), Loop(body.cmds)))
      decreases |text| - pos, 2
    {
      var phi, bodybb, testbb := BeginLoop();
      ok := Readloop(Some((phi, bodybb, testbb)));
    }

    /** Emits the current symbol, which is complete. */
    method EmitOne(cursym: Symbol, curvalue: int, nextsym: Symbol, nextvalue: int, ghost start: nat, ghost b0: Builder, ghost done: seq<Cmd>)
      returns (ok: bool, ghost done': seq<Cmd>)
      requires start < pos <= |text| && State().Valid() && b0.Valid()
      requires Progress(text, start, checked, b0, State(), done, Waiting(text, cursym, curvalue, nextsym, nextvalue, pos))
      requires Symbols(cursym, nextsym, text, pos) && cursym != SymEof && cursym != SymEndLoop
      modifies this`pos, this`code, this`insertBlock, this`curhead, this`nextreg
      ensures ok ==> old(pos) <= pos <= |text| && State().Valid() && (cursym != SymLoop ==> pos == old(pos))
      ensures ok ==> Progress(text, start, checked, b0, State(), done', After(text, nextsym, nextvalue, pos))
      ensures ok && cursym == SymLoop ==> nextsym == SymNone
      ensures !ok ==> ParseSeq(text, start).Unbalanced?
      decreases |text| - pos, 4
    {
      if cursym == SymLoop {
        ok, done' := EmitLoop(start, b0, done);
      } else {
        EmitSymbol(cursym, curvalue, start, b0, done, After(text, nextsym, nextvalue, pos));
        ok, done' := true, done + [CmdOf(cursym, curvalue)];
      }
    }

    method EmitSymbol(cursym: Symbol, curvalue: int, ghost start: nat, ghost b0: Builder, ghost done: seq<Cmd>, ghost rest: ParseResult)
      requires start <= |text| && State().Valid() && b0.Valid() && cursym in {SymRead, SymWrite, SymMove, SymChange}
      requires Progress(text, start, checked, b0, State(), done, Prepend(CmdOf(cursym, curvalue), rest))
      modifies this`code, this`insertBlock, this`curhead, this`nextreg
      ensures State().Valid() && Progress(text, start, checked, b0, State(), done + [CmdOf(cursym, curvalue)], rest)
    {
      ProgressStep(text, start, checked, b0, State(), done, CmdOf(cursym, curvalue), rest);
      WriteSymbol(cursym, curvalue);
    }

    method EmitLoop(ghost start: nat, ghost b0: Builder, ghost done: seq<Cmd>) returns (ok: bool, ghost done': seq<Cmd>)
      requires start < pos <= |text| && State().Valid() && b0.Valid()
      requires Progress(text, start, checked, b0, State(), done, LoopFrom(text, pos))
      modifies this`pos, this`code, this`insertBlock, this`curhead, this`nextreg
      ensures ok ==> old(pos) <= pos <= |text| && State().Valid()
      ensures ok ==> Progress(text, start, checked, b0, State(), done', ParseSeq(text, pos))
      ensures !ok ==> ParseSeq(text, start).Unbalanced?
      decreases |text| - pos, 3
    {
      ghost var b, body := State(), ParseSeq(text, pos);
      done' := done;
      ok := WriteLoop();
      if ok {
        ProgressStep(text, start, checked, b0, b, done, Loop(body.cmds), ParseSeq(text, pos));
        done' := done + [Loop(body.cmds)];
      }
    }

    /** Reads and emits commands up to the end of the text or an unmatched ']', which is
        read too.  The result is false where a loop inside is not closed. */
    method ReadCommands() returns (ok: bool, closed: bool)
      requires pos <= |text| && State().Valid()
      modifies this`pos, this`code, this`insertBlock, this`curhead, this`nextreg
      ensures var r := ParseSeq(text, old(pos));
        && (ok <==> r.Parsed?)
        && (ok ==> State() == Emit(checked, old(State()), r.cmds) && (closed <==> r.pos < |text|)
                   && pos == if closed then r.pos + 1 else |text|)
      decreases |text| - pos, 0
    {
      var cursym, curvalue, nextsym, nextvalue := SymNone, 0, SymNone, 0;
      ghost var b0 := State();
      ghost var done: seq<Cmd> := [];
      ghost var start := pos;
      while cursym != SymEof && cursym != SymEndLoop
        invariant start <= pos <= |text| && State().Valid()
        invariant Progress(text, start, checked, b0, State(), done, Waiting(text, cursym, curvalue, nextsym, nextvalue, pos))
        invariant cursym == nextsym == SymNone || Symbols(cursym, nextsym, text, pos)
        invariant cursym != SymNone && cursym != SymEof ==> start < pos
        decreases Pending(|text| - pos, cursym, nextsym)
      {
        if cursym != SymNone {
          ok, done := EmitOne(cursym, curvalue, nextsym, nextvalue, start, b0, done);
          if !ok {
            return false, false;
          }
        }
        cursym, curvalue, nextsym := nextsym, nextvalue, SymNone;
        if RunSymbol(cursym) {
          cursym, curvalue, nextsym, nextvalue := ReadSymbols(cursym, curvalue);
        }
      }
      ok, closed := true, cursym == SymEndLoop;
      ProgressEnd(text, start, checked, b0, State(), done, if closed then pos - 1 else pos);
    }

    /** One level of brackets.  The result is false where the compiler prints an error and
        aborts: a ']' too many at the outermost level, or a missing one inside a loop. */
    method Readloop(loop: Option<(Reg, BlockId, BlockId)>) returns (ok: bool)
      requires pos <= |text| && State().Valid()
      requires loop.Some? ==> loop.value.2 < |code|
      modifies this`pos, this`code, this`insertBlock, this`curhead, this`nextreg
      ensures var r := ParseSeq(text, old(pos));
        && (ok <==> r.Parsed? && (loop.Some? <==> r.pos < |text|))
        && (ok ==>
            var b := Emit(checked, old(State()), r.cmds);
            match loop
            case None => pos == |text| && code == b.Terminate(Br(END))
            case Some((phi, oldbb, testbb)) => pos == r.pos + 1 && State() == CloseLoop(b, phi, testbb, oldbb))
      decreases |text| - pos, 1
    {
      var closed;
      ok, closed := ReadCommands();
      if !ok {
        return;
      }
      if closed {
        if loop.None? {
          return false;
        }
        var (phi, oldbb, testbb) := loop.value;
        EndLoop(phi, oldbb, testbb);
        return true;
      }
      CreateTerm(Br(END));
      return loop.None?;
    }
  }

  /** The main entry: the compiled function, or nothing where the compiler aborts. */
  method Parse(text: string, mem: nat, checked: bool) returns (compiled: Option<Code>)
    ensures compiled == var r := ParseProgram(text);
      if r.Parsed? then Some(Compile(mem, checked, r.cmds)) else None
  {
    var compiler := new BrainF(text, mem, checked);
    var ok := compiler.Readloop(None);
    compiled := if ok then Some(compiler.code) else None;
  }
}
