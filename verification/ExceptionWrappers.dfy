/** The functions the exception demo generates: each invokes another inside catch blocks and a
    finally block.  Any number of them, over a harness that catches everything. */
module ExceptionWrappers {
  import opened Leb128
  import opened ExceptionTables

  // ----- Generated code -----------------------------------------------------------------------

  datatype BlockId = Entry | Normal | Exception | Route | External | UnwindResume | End | Finally | CatchBlock(i: nat)

  /** The states of the caught flag. */
  const NOT_THROWN := 0
  const THROWN := 1
  const CAUGHT := 2

  datatype Instr =
    | Report(event: Event)
    | ReportType
    | StoreFlag(state: int)
    | StoreResult
    | StoreException
    | DeleteException

  datatype Term =
    | Invoke(normal: BlockId, unwind: BlockId)
    | Goto(target: BlockId)
    | IfOurs(yes: BlockId, no: BlockId)
    | SwitchFlag(cases: seq<(int, BlockId)>, default: BlockId)
    | SwitchSelector(cases: seq<(int, BlockId)>, default: BlockId)
    | Return
    | Resume

  datatype Code = Code(instrs: seq<Instr>, term: Term)

  /** What can be seen of a run. */
  datatype Event = FinallyRan | CatchRan(tag: int) | EndRan | NoException | ForeignReceived | TypeReceived(tag: int) | Freed(id: nat)

  /** A thrown exception: one of ours, with the type of its type info, or a foreign one. */
  datatype Exn = Exn(ours: bool, tag: int, id: nat)

  /** What an invoke leads to: the callee completes, or a landing pad receives an exception
      and a selector. */
  datatype Arrival = Completed | Landing(exn: Exn, selector: nat)

  /** A pointer to an exception. */
  datatype Pointer = Null | To(exn: Exn)

  /** The stack slots of a generated function. */
  datatype Frame = Frame(flag: int, storage: Pointer, result: Arrival)

  datatype State =
    | At(block: BlockId, frame: Frame, events: seq<Event>)
    | Returned(events: seq<Event>)
    | Resumed(exn: Exn, events: seq<Event>)
    | Stuck

  function ExecInstr(i: Instr, l: Arrival, s: State): State
    requires s.At?
  {
    match i
    case Report(e) => At(s.block, s.frame, s.events + [e])
    case ReportType => if l.Landing? then At(s.block, s.frame, s.events + [TypeReceived(l.exn.tag)]) else Stuck
    case StoreFlag(n) => At(s.block, s.frame.(flag := n), s.events)
    case StoreResult => At(s.block, s.frame.(result := l), s.events)
    case StoreException => At(s.block, s.frame.(storage := if l.Landing? then To(l.exn) else Null), s.events)
    case DeleteException => At(s.block, s.frame, s.events + Frees(s.frame.storage))
  }

  /** deleteOurException: null and foreign exceptions are left alone. */
  function Frees(e: Pointer): seq<Event> {
    if e.To? && e.exn.ours then [Freed(e.exn.id)] else []
  }

  function ExecAll(instrs: seq<Instr>, l: Arrival, s: State): State {
    if instrs == [] || !s.At? then s else ExecAll(instrs[1..], l, ExecInstr(instrs[0], l, s))
  }

  function Pick(cases: seq<(int, BlockId)>, n: int, default: BlockId): BlockId {
    if cases == [] then default else if cases[0].0 == n then cases[0].1 else Pick(cases[1..], n, default)
  }

  /** l is what the invoke leads to: a landing pad, or nothing if the callee returns. */
  function Leave(t: Term, l: Arrival, s: State): State
    requires s.At?
  {
    match t
    case Invoke(normal, unwind) => At(if l.Landing? then unwind else normal, s.frame, s.events)
    case Goto(b) => At(b, s.frame, s.events)
    case IfOurs(yes, no) => if l.Landing? then At(if l.exn.ours then yes else no, s.frame, s.events) else Stuck
    case SwitchFlag(cases, d) => At(Pick(cases, s.frame.flag, d), s.frame, s.events)
    case SwitchSelector(cases, d) => if l.Landing? then At(Pick(cases, l.selector, d), s.frame, s.events) else Stuck
    case Return => Returned(s.events)
    case Resume => if s.frame.result.Landing? then Resumed(s.frame.result.exn, s.events) else Stuck
  }

  function Step(f: map<BlockId, Code>, l: Arrival, s: State): State {
    if !s.At? then s
    else if s.block !in f then Stuck
    else
      var s' := ExecAll(f[s.block].instrs, l, s);
      if s'.At? then Leave(f[s.block].term, l, s') else s'
  }

  function Run(f: map<BlockId, Code>, l: Arrival, n: nat, s: State): State {
    if n == 0 then s else Run(f, l, n - 1, Step(f, l, s))
  }

  /** A function starts with the flag in the not-thrown state and null storage. */
  const START: State := At(Entry, Frame(NOT_THROWN, Null, Completed), [])

  // ----- The generator -------------------------------------------------------------------------

  function CatchCases(n: nat): seq<(int, BlockId)> {
    if n == 0 then [] else CatchCases(n - 1) + [(n, CatchBlock(n - 1))]
  }

  const FINALLY_CODE: Code := Code([Report(FinallyRan)], SwitchFlag([(CAUGHT, End), (THROWN, UnwindResume)], End))

  function CatchCode(tag: int): Code {
    Code([Report(CatchRan(tag)), StoreFlag(CAUGHT)], Goto(Finally))
  }

  function CatchCodes(tags: seq<int>, n: nat): map<BlockId, Code>
    requires n <= |tags|
  {
    if n == 0 then map[] else CatchCodes(tags, n - 1)[CatchBlock(n - 1) := CatchCode(tags[n - 1])]
  }

  /** The function that createCatchWrappedInvokeFunction generates. */
  function WrapperCode(tags: seq<int>): map<BlockId, Code> {
    map[Finally := FINALLY_CODE] + CatchCodes(tags, |tags|) + FixedCode(|tags|)
  }

  /** The blocks that are always there. */
  function FixedCode(n: nat): map<BlockId, Code> {
    map[Entry := Code([], Invoke(Normal, Exception)),
        End := Code([Report(EndRan), DeleteException], Return),
        Normal := Code([Report(NoException)], Goto(Finally)),
        UnwindResume := Code([], Resume),
        Exception := Code([StoreResult, StoreException, StoreFlag(THROWN)], IfOurs(Route, External)),
        External := Code([Report(ForeignReceived)], Goto(Finally)),
        Route := Code([ReportType], SwitchSelector(CatchCases(n), Finally))]
  }

  /** The fixed blocks in the order in which they are generated. */
  function InOrder(blocks: map<BlockId, Code>, n: nat): map<BlockId, Code> {
    blocks
      [Entry := Code([], Invoke(Normal, Exception))]
      [End := Code([Report(EndRan), DeleteException], Return)]
      [Normal := Code([Report(NoException)], Goto(Finally))]
      [UnwindResume := Code([], Resume)]
      [Exception := Code([StoreResult, StoreException, StoreFlag(THROWN)], IfOurs(Route, External))]
      [External := Code([Report(ForeignReceived)], Goto(Finally))]
      [Route := Code([ReportType], SwitchSelector(CatchCases(n), Finally))]
  }

  lemma FixedInOrder(blocks: map<BlockId, Code>, n: nat)
    ensures InOrder(blocks, n) == blocks + FixedCode(n)
  {
  }

  /** All blocks together. */
  lemma Assembled(blocks: map<BlockId, Code>, tags: seq<int>, catches: map<BlockId, Code>, fixed: map<BlockId, Code>)
    requires catches == CatchCodes(tags, |tags|) && fixed == FixedCode(|tags|)
    ensures blocks[Finally := FINALLY_CODE] + catches + fixed == blocks + WrapperCode(tags)
  {
    PlusAssociates(blocks, map[Finally := FINALLY_CODE], catches, fixed);
    UpdateIsPlus(blocks, Finally, FINALLY_CODE);
  }

  lemma UpdateIsPlus(a: map<BlockId, Code>, b: BlockId, c: Code)
    ensures a[b := c] == a + map[b := c]
  {
  }

  lemma PlusAssociates(a: map<BlockId, Code>, b: map<BlockId, Code>, c: map<BlockId, Code>, d: map<BlockId, Code>)
    ensures a + b + c + d == a + (b + c + d)
  {
  }

  /** The builder: instructions go to the end of the block at the insertion point, and a
      terminator completes it. */
  class Builder {
    var blocks: map<BlockId, Code>
    var point: BlockId
    var pending: seq<Instr>

    constructor ()
      ensures blocks == map[]
    {
      blocks, point, pending := map[], Entry, [];
    }

    method SetInsertPoint(b: BlockId)
      modifies this
      ensures blocks == old(blocks) && point == b && pending == []
    {
      point, pending := b, [];
    }

    method Append(i: Instr)
      modifies this`pending
      ensures pending == old(pending) + [i]
    {
      pending := pending + [i];
    }

    method Terminate(t: Term)
      modifies this`blocks
      ensures blocks == old(blocks)[point := Code(pending, t)]
    {
      blocks := blocks[point := Code(pending, t)];
    }

    method CreateFinallyBlock(end: BlockId, unwindResume: BlockId)
      modifies this
      ensures blocks == old(blocks)[Finally := Code([Report(FinallyRan)], SwitchFlag([(CAUGHT, end), (THROWN, unwindResume)], end))]
    {
      SetInsertPoint(Finally);
      Append(Report(FinallyRan));
      var cases := [];
      cases := cases + [(CAUGHT, end)];
      cases := cases + [(THROWN, unwindResume)];
      assert pending == [Report(FinallyRan)] && cases == [(CAUGHT, end), (THROWN, unwindResume)];
      Terminate(SwitchFlag(cases, end));
    }

    method CreateCatchBlock(i: nat, tag: int, next: BlockId)
      modifies this
      ensures blocks == old(blocks)[CatchBlock(i) := Code([Report(CatchRan(tag)), StoreFlag(CAUGHT)], Goto(next))]
    {
      SetInsertPoint(CatchBlock(i));
      Append(Report(CatchRan(tag)));
      Append(StoreFlag(CAUGHT));
      assert pending == [Report(CatchRan(tag)), StoreFlag(CAUGHT)];
      Terminate(Goto(next));
    }

    method CreateCatchWrappedInvokeFunction(tags: seq<int>)
      modifies this
      ensures blocks == old(blocks) + WrapperCode(tags)
    {
      CreateFinallyBlock(End, UnwindResume);
      CreateCatchBlocks(tags);
      ghost var before := blocks;
      CreateBlock(Entry, [], Invoke(Normal, Exception));
      CreateEndBlock();
      CreateBlock(Normal, [Report(NoException)], Goto(Finally));
      CreateBlock(UnwindResume, [], Resume);
      CreateExceptionBlock();
      CreateBlock(External, [Report(ForeignReceived)], Goto(Finally));
      var cases := CasesUpTo(|tags|);
      CreateBlock(Route, [ReportType], SwitchSelector(cases, Finally));
      assert blocks == InOrder(before, |tags|);
      FixedInOrder(before, |tags|);
      Assembled(old(blocks), tags, CatchCodes(tags, |tags|), FixedCode(|tags|));
    }

    method CreateCatchBlocks(tags: seq<int>)
      modifies this
      ensures blocks == old(blocks) + CatchCodes(tags, |tags|)
    {
      var i := 0;
      while i < |tags|
        invariant 0 <= i <= |tags| && blocks == old(blocks) + CatchCodes(tags, i)
      {
        CreateCatchBlock(i, tags[i], Finally);
        i := i + 1;
      }
    }

    method CreateBlock(b: BlockId, instrs: seq<Instr>, t: Term)
      modifies this
      ensures blocks == old(blocks)[b := Code(instrs, t)]
    {
      SetInsertPoint(b);
      var i := 0;
      while i < |instrs|
        invariant 0 <= i <= |instrs| && pending == instrs[..i] && point == b && blocks == old(blocks)
      {
        Append(instrs[i]);
        i := i + 1;
      }
      assert instrs[..i] == instrs;
      Terminate(t);
    }

    method CreateEndBlock()
      modifies this
      ensures blocks == old(blocks)[End := Code([Report(EndRan), DeleteException], Return)]
    {
      SetInsertPoint(End);
      Append(Report(EndRan));
      Append(DeleteException);
      assert pending == [Report(EndRan), DeleteException];
      Terminate(Return);
    }

    method CreateExceptionBlock()
      modifies this
      ensures blocks == old(blocks)[Exception := Code([StoreResult, StoreException, StoreFlag(THROWN)], IfOurs(Route, External))]
    {
      SetInsertPoint(Exception);
      Append(StoreResult);
      Append(StoreException);
      Append(StoreFlag(THROWN));
      assert pending == [StoreResult, StoreException, StoreFlag(THROWN)];
      Terminate(IfOurs(Route, External));
    }

    method CasesUpTo(n: nat) returns (cases: seq<(int, BlockId)>)
      ensures cases == CatchCases(n)
    {
      cases := [];
      var i := 1;
      while i <= n
        invariant 1 <= i <= n + 1 && cases == CatchCases(i - 1)
      {
        cases := cases + [(i, CatchBlock(i - 1))];
        i := i + 1;
      }
    }
  }

  // ----- One generated function --------------------------------------------------------------------

  lemma {:induction false} PickCatch(n: nat, more: seq<(int, BlockId)>, k: int, default: BlockId)
    ensures Pick(CatchCases(n) + more, k, default) == if 1 <= k <= n then CatchBlock(k - 1) else Pick(more, k, default)
    decreases n
  {
    if n == 0 {
      assert [] + more == more;
    } else {
      PickCatch(n - 1, [(n, CatchBlock(n - 1))] + more, k, default);
      assert CatchCases(n - 1) + ([(n, CatchBlock(n - 1))] + more) == CatchCases(n) + more;
      assert ([(n, CatchBlock(n - 1))] + more)[1..] == more;
    }
  }

  lemma {:induction false} CatchCodesAt(tags: seq<int>, n: nat)
    requires n <= |tags|
    ensures forall b :: b in CatchCodes(tags, n) <==> b.CatchBlock? && b.i < n
    ensures forall k :: 0 <= k < n ==> CatchCodes(tags, n)[CatchBlock(k)] == CatchCode(tags[k])
  {
    if n > 0 {
      CatchCodesAt(tags, n - 1);
    }
  }

  lemma FixedBlocks(n: nat)
    ensures var f := FixedCode(n);
      && f.Keys == {Entry, Normal, Exception, Route, External, UnwindResume, End}
      && f[Entry] == Code([], Invoke(Normal, Exception)) && f[Normal] == Code([Report(NoException)], Goto(Finally))
      && f[Exception] == Code([StoreResult, StoreException, StoreFlag(THROWN)], IfOurs(Route, External))
      && f[Route] == Code([ReportType], SwitchSelector(CatchCases(n), Finally))
      && f[External] == Code([Report(ForeignReceived)], Goto(Finally)) && f[UnwindResume] == Code([], Resume)
      && f[End] == Code([Report(EndRan), DeleteException], Return)
  {
  }

  /** Where the blocks of the generated function come from. */
  lemma WrapperBlock(tags: seq<int>, b: BlockId)
    ensures var f := WrapperCode(tags);
      match b
      case Finally => b in f && f[b] == FINALLY_CODE
      case CatchBlock(k) => k < |tags| ==> b in f && f[b] == CatchCode(tags[k])
      case _ => b in FixedCode(|tags|) && b in f && f[b] == FixedCode(|tags|)[b]
  {
    CatchCodesAt(tags, |tags|);
    FixedBlocks(|tags|);
    UnionAt(map[Finally := FINALLY_CODE], CatchCodes(tags, |tags|), FixedCode(|tags|), b);
  }

  lemma UnionAt(first: map<BlockId, Code>, second: map<BlockId, Code>, third: map<BlockId, Code>, b: BlockId)
    ensures var f := first + second + third;
      && (b in third ==> b in f && f[b] == third[b])
      && (b !in third && b in second ==> b in f && f[b] == second[b])
      && (b !in third && b !in second && b in first ==> b in f && f[b] == first[b])
  {
  }

  lemma ExecOne(i: Instr, l: Arrival, s: State)
    requires s.At?
    ensures ExecAll([i], l, s) == ExecInstr(i, l, s)
  {
    assert [i][1..] == [];
  }

  lemma ExecTwo(i: Instr, j: Instr, l: Arrival, s: State)
    requires s.At? && ExecInstr(i, l, s).At?
    ensures ExecAll([i, j], l, s) == ExecInstr(j, l, ExecInstr(i, l, s))
  {
    assert [i, j][1..] == [j];
    ExecOne(j, l, ExecInstr(i, l, s));
  }

  lemma ExecThree(i: Instr, j: Instr, k: Instr, l: Arrival, s: State)
    requires s.At? && ExecInstr(i, l, s).At? && ExecInstr(j, l, ExecInstr(i, l, s)).At?
    ensures ExecAll([i, j, k], l, s) == ExecInstr(k, l, ExecInstr(j, l, ExecInstr(i, l, s)))
  {
    assert [i, j, k][1..] == [j, k];
    ExecTwo(j, k, l, ExecInstr(i, l, s));
  }

  lemma PickFlag(n: int)
    ensures Pick([(CAUGHT, End), (THROWN, UnwindResume)], n, End) == if n == THROWN then UnwindResume else End
  {
    var cases := [(CAUGHT, End), (THROWN, UnwindResume)];
    assert cases[1..] == [(THROWN, UnwindResume)] && cases[1..][1..] == [];
    assert Pick(cases[1..], n, End) == if n == THROWN then UnwindResume else End;
  }

  /** The steps out of each block. */
  lemma StepFinally(tags: seq<int>, l: Arrival, frame: Frame, events: seq<Event>)
    ensures Step(WrapperCode(tags), l, At(Finally, frame, events))
      == At(if frame.flag == THROWN then UnwindResume else End, frame, events + [FinallyRan])
  {
    WrapperBlock(tags, Finally);
    ExecOne(Report(FinallyRan), l, At(Finally, frame, events));
    PickFlag(frame.flag);
  }

  lemma StepEnd(tags: seq<int>, l: Arrival, frame: Frame, events: seq<Event>)
    ensures Step(WrapperCode(tags), l, At(End, frame, events)) == Returned(events + [EndRan] + Frees(frame.storage))
  {
    WrapperBlock(tags, End);
    FixedBlocks(|tags|);
    ExecTwo(Report(EndRan), DeleteException, l, At(End, frame, events));
  }

  lemma StepResume(tags: seq<int>, l: Arrival, frame: Frame, events: seq<Event>)
    requires frame.result.Landing?
    ensures Step(WrapperCode(tags), l, At(UnwindResume, frame, events)) == Resumed(frame.result.exn, events)
  {
    WrapperBlock(tags, UnwindResume);
    FixedBlocks(|tags|);
  }

  lemma StepEntry(tags: seq<int>, l: Arrival)
    ensures Step(WrapperCode(tags), l, START) == At(if l.Landing? then Exception else Normal, START.frame, [])
  {
    WrapperBlock(tags, Entry);
    FixedBlocks(|tags|);
  }

  lemma StepNormal(tags: seq<int>, l: Arrival, frame: Frame)
    ensures Step(WrapperCode(tags), l, At(Normal, frame, [])) == At(Finally, frame, [NoException])
  {
    WrapperBlock(tags, Normal);
    FixedBlocks(|tags|);
    ExecOne(Report(NoException), l, At(Normal, frame, []));
  }

  lemma StepException(tags: seq<int>, l: Arrival)
    requires l.Landing?
    ensures Step(WrapperCode(tags), l, At(Exception, START.frame, []))
      == At(if l.exn.ours then Route else External, Frame(THROWN, To(l.exn), l), [])
  {
    WrapperBlock(tags, Exception);
    FixedBlocks(|tags|);
    ExecThree(StoreResult, StoreException, StoreFlag(THROWN), l, At(Exception, START.frame, []));
  }

  lemma StepExternal(tags: seq<int>, l: Arrival, frame: Frame)
    ensures Step(WrapperCode(tags), l, At(External, frame, [])) == At(Finally, frame, [ForeignReceived])
  {
    WrapperBlock(tags, External);
    FixedBlocks(|tags|);
    ExecOne(Report(ForeignReceived), l, At(External, frame, []));
  }

  lemma StepRoute(tags: seq<int>, l: Arrival, frame: Frame)
    requires l.Landing?
    ensures Step(WrapperCode(tags), l, At(Route, frame, []))
      == At(if 1 <= l.selector <= |tags| then CatchBlock(l.selector - 1) else Finally, frame, [TypeReceived(l.exn.tag)])
  {
    WrapperBlock(tags, Route);
    FixedBlocks(|tags|);
    ExecOne(ReportType, l, At(Route, frame, []));
    PickCatch(|tags|, [], l.selector, Finally);
    assert CatchCases(|tags|) + [] == CatchCases(|tags|);
  }

  lemma StepCatch(tags: seq<int>, l: Arrival, k: nat, frame: Frame, events: seq<Event>)
    requires k < |tags|
    ensures Step(WrapperCode(tags), l, At(CatchBlock(k), frame, events))
      == At(Finally, frame.(flag := CAUGHT), events + [CatchRan(tags[k])])
  {
    WrapperBlock(tags, CatchBlock(k));
    ExecTwo(Report(CatchRan(tags[k])), StoreFlag(CAUGHT), l, At(CatchBlock(k), frame, events));
  }

  /** From the finally block on: two more blocks. */
  lemma FromFinally(tags: seq<int>, l: Arrival, frame: Frame, events: seq<Event>)
    requires frame.flag == THROWN ==> frame.result.Landing?
    ensures Run(WrapperCode(tags), l, 2, At(Finally, frame, events))
      == if frame.flag == THROWN then Resumed(frame.result.exn, events + [FinallyRan])
         else Returned(events + [FinallyRan, EndRan] + Frees(frame.storage))
  {
    StepFinally(tags, l, frame, events);
    var events1 := events + [FinallyRan];
    if frame.flag == THROWN {
      StepResume(tags, l, frame, events1);
      RunTwo(WrapperCode(tags), l, At(Finally, frame, events), At(UnwindResume, frame, events1));
    } else {
      StepEnd(tags, l, frame, events1);
      RunTwo(WrapperCode(tags), l, At(Finally, frame, events), At(End, frame, events1));
      assert events + [FinallyRan] + [EndRan] == events + [FinallyRan, EndRan];
    }
  }

  lemma RunTwo(f: map<BlockId, Code>, l: Arrival, s: State, s1: State)
    requires s1 == Step(f, l, s)
    ensures Run(f, l, 2, s) == Step(f, l, s1)
  {
    assert Run(f, l, 2, s) == Run(f, l, 1, s1) && Run(f, l, 1, s1) == Run(f, l, 0, Step(f, l, s1));
  }

  lemma {:induction false} RunMore(f: map<BlockId, Code>, l: Arrival, n: nat, m: nat, s: State)
    ensures Run(f, l, n + m, s) == Run(f, l, m, Run(f, l, n, s))
    decreases n
  {
    if n > 0 {
      RunMore(f, l, n - 1, m, Step(f, l, s));
    }
  }

  /** What a generated function does with what its invoke leads to. */
  function Outcome1(tags: seq<int>, l: Arrival): State {
    if l.Completed? then Returned([NoException, FinallyRan, EndRan])
    else if !l.exn.ours then Resumed(l.exn, [ForeignReceived, FinallyRan])
    else if 1 <= l.selector <= |tags| then
      Returned([TypeReceived(l.exn.tag), CatchRan(tags[l.selector - 1]), FinallyRan, EndRan, Freed(l.exn.id)])
    else Resumed(l.exn, [TypeReceived(l.exn.tag), FinallyRan])
  }

  lemma {:induction false} Ended(f: map<BlockId, Code>, l: Arrival, n: nat, s: State)
    requires !s.At?
    ensures Run(f, l, n, s) == s
  {
    if n > 0 {
      Ended(f, l, n - 1, s);
    }
  }

  /** A run of 6 blocks, from the state after n of them, where two more end it. */
  lemma Finish(f: map<BlockId, Code>, l: Arrival, n: nat, s: State)
    requires n <= 4 && s == Run(f, l, n, START) && !Run(f, l, 2, s).At?
    ensures Run(f, l, 6, START) == Run(f, l, 2, s)
  {
    RunMore(f, l, n, 6 - n, START);
    RunMore(f, l, 2, 4 - n, s);
    Ended(f, l, 4 - n, Run(f, l, 2, s));
  }

  /** One more block. */
  lemma RunNext(f: map<BlockId, Code>, l: Arrival, n: nat)
    ensures Run(f, l, n + 1, START) == Step(f, l, Run(f, l, n, START))
  {
    RunMore(f, l, n, 1, START);
    var s := Run(f, l, n, START);
    assert Run(f, l, 1, s) == Run(f, l, 0, Step(f, l, s));
  }

  lemma FirstBlock(tags: seq<int>, l: Arrival)
    ensures Run(WrapperCode(tags), l, 1, START) == At(if l.Landing? then Exception else Normal, START.frame, [])
  {
    StepEntry(tags, l);
    RunNext(WrapperCode(tags), l, 0);
  }

  /** A generated function ends after at most six blocks, by returning or by resuming, as it should. */
  lemma WrapperRuns(tags: seq<int>, l: Arrival)
    ensures Run(WrapperCode(tags), l, 6, START) == Outcome1(tags, l)
  {
    var f := WrapperCode(tags);
    FirstBlock(tags, l);
    RunNext(f, l, 1);
    if l.Completed? {
      StepNormal(tags, l, START.frame);
      FromFinally(tags, l, START.frame, [NoException]);
      Finish(f, l, 2, At(Finally, START.frame, [NoException]));
      assert [NoException] + [FinallyRan, EndRan] + [] == [NoException, FinallyRan, EndRan];
    } else {
      StepException(tags, l);
      LandingRuns(tags, l);
    }
  }

  lemma LandingRuns(tags: seq<int>, l: Arrival)
    requires l.Landing?
    requires Run(WrapperCode(tags), l, 2, START) == At(if l.exn.ours then Route else External, Frame(THROWN, To(l.exn), l), [])
    ensures Run(WrapperCode(tags), l, 6, START) == Outcome1(tags, l)
  {
    var f, e := WrapperCode(tags), l.exn;
    var frame := Frame(THROWN, To(e), l);
    RunNext(f, l, 2);
    if !e.ours {
      StepExternal(tags, l, frame);
      FromFinally(tags, l, frame, [ForeignReceived]);
      Finish(f, l, 3, At(Finally, frame, [ForeignReceived]));
      assert [ForeignReceived] + [FinallyRan] == [ForeignReceived, FinallyRan];
    } else {
      StepRoute(tags, l, frame);
      if 1 <= l.selector <= |tags| {
        CatchRuns(tags, l);
      } else {
        FromFinally(tags, l, frame, [TypeReceived(e.tag)]);
        Finish(f, l, 3, At(Finally, frame, [TypeReceived(e.tag)]));
        assert [TypeReceived(e.tag)] + [FinallyRan] == [TypeReceived(e.tag), FinallyRan];
      }
    }
  }

  lemma CatchRuns(tags: seq<int>, l: Arrival)
    requires l.Landing? && l.exn.ours && 1 <= l.selector <= |tags|
    requires Run(WrapperCode(tags), l, 3, START)
      == At(CatchBlock(l.selector - 1), Frame(THROWN, To(l.exn), l), [TypeReceived(l.exn.tag)])
    ensures Run(WrapperCode(tags), l, 6, START) == Outcome1(tags, l)
  {
    var f, e, tag := WrapperCode(tags), l.exn, tags[l.selector - 1];
    var frame, events := Frame(CAUGHT, To(e), l), [TypeReceived(e.tag)] + [CatchRan(tag)];
    RunNext(f, l, 3);
    StepCatch(tags, l, l.selector - 1, Frame(THROWN, To(e), l), [TypeReceived(e.tag)]);
    FromFinally(tags, l, frame, events);
    Finish(f, l, 4, At(Finally, frame, events));
    assert events + [FinallyRan, EndRan] + [Freed(e.id)] == [TypeReceived(e.tag), CatchRan(tag), FinallyRan, EndRan, Freed(e.id)];
  }

  // ----- The personality routine on a generated function -----------------------------------------------

  /** The position, from 1, of the first of the caught types that is the thrown one. */
  function Position(tags: seq<int>, tag: int): (n: nat)
    ensures n <= |tags| && (n == 0 <==> tag !in tags)
    ensures n > 0 ==> tags[n - 1] == tag && forall k :: 0 <= k < n - 1 ==> tags[k] != tag
  {
    if tags == [] then 0
    else if tags[0] == tag then 1
    else
      var n := Position(tags[1..], tag);
      if n == 0 then 0 else n + 1
  }

  function Selector(tags: seq<int>, e: Exn): nat {
    if e.ours then Position(tags, e.tag) else 0
  }

  /** The entry of the call-site table for the invoke: its clauses are the caught types, in order,
      and a cleanup. */
  ghost predicate SiteFor(tags: seq<int>, s: Site) {
    && s.pad != 0 && ValueU(s.actionBytes) > 0 && |s.chain| == |tags| + 1 && s.chain[|tags|].clause == Cleanup
    && forall k :: 0 <= k < |tags| ==> s.chain[k].clause == Catch(tags[k])
  }

  /** On such an entry the personality routine gives the selector in the cleanup phase, and has
      found a handler in the search phase exactly if it is not 0. */
  lemma PersonalityOnSite(tags: seq<int>, s: Site, pc: nat, funcStart: nat, e: Exn)
    requires SiteFor(tags, s) && Covers(s, pc)
    ensures Decide([s], pc, funcStart, e.ours, e.tag, true) == Ok(if Selector(tags, e) > 0 then HandlerFound else Continue)
    ensures Decide([s], pc, funcStart, e.ours, e.tag, false)
      == Ok(Install(Selector(tags, e), (funcStart + s.pad) % TWO_TO_THE_64))
  {
    SearchFirst(s.chain, e.tag, 0);
    forall k | 0 <= k < |tags| ensures s.chain[k].clause == Catch(e.tag) <==> tags[k] == e.tag {
      assert s.chain[k].clause == Catch(tags[k]);
    }
    SamePosition(tags, s.chain, e.tag, Search(s.chain, e.tag, 0).value);
  }

  lemma SamePosition(tags: seq<int>, chain: seq<Action>, tag: int, n: nat)
    requires |chain| == |tags| + 1 && chain[|tags|].clause == Cleanup
    requires forall k :: 0 <= k < |tags| ==> (chain[k].clause == Catch(tag) <==> tags[k] == tag)
    requires if n == 0 then forall k :: 0 <= k < |chain| ==> chain[k].clause != Catch(tag)
             else n <= |chain| && chain[n - 1].clause == Catch(tag) && forall k :: 0 <= k < n - 1 ==> chain[k].clause != Catch(tag)
    ensures n == Position(tags, tag)
  {
    var m := Position(tags, tag);
    assert m > 0 ==> tags[m - 1] == tag && chain[m - 1].clause == Catch(tag);
    assert n > 0 ==> n - 1 < |tags| && tags[n - 1] == tag;
  }

  // ----- A stack of generated functions over the harness ------------------------------------------------

  /** The search phase: the first function, from the innermost on, that has a handler; the harness
      if there is none. */
  function Handler(stack: seq<seq<int>>, e: Exn): (h: nat)
    ensures h <= |stack|
    ensures h < |stack| ==> Selector(stack[h], e) > 0
    ensures forall k :: 0 <= k < h ==> Selector(stack[k], e) == 0
  {
    if stack == [] || Selector(stack[0], e) > 0 then 0 else 1 + Handler(stack[1..], e)
  }

  /** What every function of the stack does, from the innermost on, and what reaches the harness. */
  datatype Trace = Trace(levels: seq<seq<Event>>, escaped: Pointer) | Broken

  /** What the invoke of a function leads to. */
  function Arriving(tags: seq<int>, incoming: Pointer): Arrival {
    if incoming.To? then Landing(incoming.exn, Selector(tags, incoming.exn)) else Completed
  }

  /** The cleanup phase, and the returns after the handler has run. */
  function Unwind(stack: seq<seq<int>>, incoming: Pointer): Trace {
    if stack == [] then Trace([], incoming)
    else
      match Run(WrapperCode(stack[0]), Arriving(stack[0], incoming), 6, START)
      case Returned(events) => Prepend(events, Unwind(stack[1..], Null))
      case Resumed(e, events) => Prepend(events, Unwind(stack[1..], To(e)))
      case _ => Broken
  }

  function Prepend(events: seq<Event>, t: Trace): Trace {
    if t.Trace? then Trace([events] + t.levels, t.escaped) else Broken
  }

  /** The generated throw function: the native type makes a foreign exception. */
  function Throw(tag: int, id: nat): Exn {
    if tag == -1 then Exn(false, tag, id) else Exn(true, tag, id)
  }

  function Count(events: seq<Event>, e: Event): nat {
    if events == [] then 0 else (if events[0] == e then 1 else 0) + Count(events[1..], e)
  }

  /** What one function does, given where the handler is. */
  ghost predicate LevelOk(tags: seq<int>, k: nat, h: nat, e: Exn, events: seq<Event>) {
    && Count(events, FinallyRan) == 1
    && (forall id :: Count(events, Freed(id)) == if k == h && id == e.id then 1 else 0)
    && (forall t :: Count(events, CatchRan(t)) == if k == h && t == e.tag then 1 else 0)
    && (Count(events, NoException) > 0 <==> k > h)
  }

  lemma {:induction false} QuietStack(stack: seq<seq<int>>)
    ensures var t := Unwind(stack, Null);
      && t.Trace? && |t.levels| == |stack| && t.escaped == Null
      && forall k :: 0 <= k < |stack| ==> t.levels[k] == [NoException, FinallyRan, EndRan]
  {
    if stack != [] {
      WrapperRuns(stack[0], Completed);
      QuietStack(stack[1..]);
    }
  }

  lemma Counts(tags: seq<int>, h: nat, e: Exn)
    ensures forall k: nat :: k > h ==> LevelOk(tags, k, h, e, [NoException, FinallyRan, EndRan])
    ensures forall k: nat :: k < h ==> LevelOk(tags, k, h, e, [ForeignReceived, FinallyRan])
    ensures forall k: nat :: k < h ==> LevelOk(tags, k, h, e, [TypeReceived(e.tag), FinallyRan])
    ensures LevelOk(tags, h, h, e, [TypeReceived(e.tag), CatchRan(e.tag), FinallyRan, EndRan, Freed(e.id)])
  {
    CountThree(NoException, FinallyRan, EndRan);
    CountTwo(ForeignReceived, FinallyRan);
    CountTwo(TypeReceived(e.tag), FinallyRan);
    CountFive(TypeReceived(e.tag), CatchRan(e.tag), FinallyRan, EndRan, Freed(e.id));
  }

  function One(a: Event, x: Event): nat { if a == x then 1 else 0 }

  lemma CountCons(a: Event, rest: seq<Event>, x: Event)
    ensures Count([a] + rest, x) == One(a, x) + Count(rest, x)
  {
    assert ([a] + rest)[1..] == rest;
  }

  lemma CountTwo(a: Event, b: Event)
    ensures forall x :: Count([a, b], x) == One(a, x) + One(b, x)
  {
    forall x ensures Count([a, b], x) == One(a, x) + One(b, x) {
      assert [a, b] == [a] + ([b] + []);
      CountCons(a, [b] + [], x);
      CountCons(b, [], x);
    }
  }

  lemma CountThree(a: Event, b: Event, c: Event)
    ensures forall x :: Count([a, b, c], x) == One(a, x) + One(b, x) + One(c, x)
  {
    CountTwo(b, c);
    forall x ensures Count([a, b, c], x) == One(a, x) + One(b, x) + One(c, x) {
      assert [a, b, c] == [a] + [b, c];
      CountCons(a, [b, c], x);
    }
  }

  lemma CountFive(a: Event, b: Event, c: Event, d: Event, e: Event)
    ensures forall x :: Count([a, b, c, d, e], x) == One(a, x) + One(b, x) + One(c, x) + One(d, x) + One(e, x)
  {
    CountThree(c, d, e);
    forall x ensures Count([a, b, c, d, e], x) == One(a, x) + One(b, x) + One(c, x) + One(d, x) + One(e, x) {
      assert [a, b, c, d, e] == [a] + ([b] + [c, d, e]);
      CountCons(a, [b] + [c, d, e], x);
      CountCons(b, [c, d, e], x);
    }
  }

  function Onwards(s: State, rest: seq<seq<int>>): Trace {
    match s
    case Returned(events) => Prepend(events, Unwind(rest, Null))
    case Resumed(e, events) => Prepend(events, Unwind(rest, To(e)))
    case _ => Broken
  }

  /** One function of the stack. */
  lemma UnwindNext(tags: seq<int>, rest: seq<seq<int>>, incoming: Pointer)
    ensures Unwind([tags] + rest, incoming) == Onwards(Outcome1(tags, Arriving(tags, incoming)), rest)
  {
    WrapperRuns(tags, Arriving(tags, incoming));
    assert ([tags] + rest)[1..] == rest;
  }

  lemma CaughtOutcome(tags: seq<int>, e: Exn)
    requires Selector(tags, e) > 0
    ensures Outcome1(tags, Arriving(tags, To(e)))
      == Returned([TypeReceived(e.tag), CatchRan(e.tag), FinallyRan, EndRan, Freed(e.id)])
  {
  }

  /** Caught by the innermost function. */
  lemma CaughtRun(stack: seq<seq<int>>, e: Exn)
    requires stack != [] && Selector(stack[0], e) > 0
    ensures Unwind(stack, To(e))
      == Prepend([TypeReceived(e.tag), CatchRan(e.tag), FinallyRan, EndRan, Freed(e.id)], Unwind(stack[1..], Null))
  {
    UnwindNext(stack[0], stack[1..], To(e));
    assert stack == [stack[0]] + stack[1..];
    CaughtOutcome(stack[0], e);
  }

  lemma CaughtFirst(stack: seq<seq<int>>, e: Exn)
    requires stack != [] && Selector(stack[0], e) > 0
    ensures var t := Unwind(stack, To(e));
      && t.Trace? && |t.levels| == |stack| && t.escaped == Null
      && forall k :: 0 <= k < |stack| ==> LevelOk(stack[k], k, 0, e, t.levels[k])
  {
    CaughtRun(stack, e);
    QuietStack(stack[1..]);
    var t := Unwind(stack, To(e));
    var rest := Unwind(stack[1..], Null);
    forall k | 0 <= k < |stack| ensures LevelOk(stack[k], k, 0, e, t.levels[k]) {
      Counts(stack[k], 0, e);
      if k > 0 {
        assert t.levels[k] == rest.levels[k - 1];
      }
    }
  }

  /** Passing through the innermost function. */
  lemma PassedFirst(stack: seq<seq<int>>, e: Exn)
    requires stack != [] && Selector(stack[0], e) == 0
    ensures Unwind(stack, To(e))
      == Prepend(if e.ours then [TypeReceived(e.tag), FinallyRan] else [ForeignReceived, FinallyRan], Unwind(stack[1..], To(e)))
    ensures Handler(stack, e) == 1 + Handler(stack[1..], e)
  {
    WrapperRuns(stack[0], Landing(e, 0));
  }

  lemma {:induction false} ThrownStack(stack: seq<seq<int>>, e: Exn)
    ensures var t, h := Unwind(stack, To(e)), Handler(stack, e);
      && t.Trace? && |t.levels| == |stack|
      && t.escaped == (if h < |stack| then Null else To(e))
      && forall k :: 0 <= k < |stack| ==> LevelOk(stack[k], k, h, e, t.levels[k])
  {
    if stack != [] {
      if Selector(stack[0], e) > 0 {
        CaughtFirst(stack, e);
      } else {
        PassedFirst(stack, e);
        ThrownStack(stack[1..], e);
        var t, h := Unwind(stack, To(e)), Handler(stack, e);
        var rest := Unwind(stack[1..], To(e));
        Counts(stack[0], h, e);
        forall k | 0 <= k < |stack| ensures LevelOk(stack[k], k, h, e, t.levels[k]) {
          if k > 0 {
            LevelDown(stack[k], k, h, e, rest.levels[k - 1]);
          }
        }
      }
    }
  }

  /** One level further out. */
  lemma LevelDown(tags: seq<int>, k: nat, h: nat, e: Exn, events: seq<Event>)
    requires k > 0 && h > 0 && LevelOk(tags, k - 1, h - 1, e, events)
    ensures LevelOk(tags, k, h, e, events)
  {
  }

  /** The whole protocol.  Of the functions that catch the type of one of our exceptions, the innermost
      catches it: it alone runs a catch block, and it frees the exception, once; the functions inside
      it only clean up, the ones outside see no exception, and nothing reaches the harness.  Where no
      function catches the type, or the exception is foreign, no catch block runs, nothing is freed, and
      the exception reaches the harness.  Every finally block runs once in any case. */
  lemma ThrowIsHandled(stack: seq<seq<int>>, tag: int, id: nat)
    ensures var e := Throw(tag, id);
      var h, t := Handler(stack, e), Unwind(stack, To(e));
      && t.Trace? && |t.levels| == |stack|
      && (forall k :: 0 <= k < |stack| ==> LevelOk(stack[k], k, h, e, t.levels[k]))
      && (h < |stack| ==> tag != -1 && tag in stack[h] && t.escaped == Null)
      && (h == |stack| ==> t.escaped == To(e))
      && (forall k :: 0 <= k < h ==> tag == -1 || tag !in stack[k])
  {
    ThrownStack(stack, Throw(tag, id));
  }
}
