/** The BrainF language: its eight commands over a finite tape, as a plain
    character-by-character interpreter, and the fused commands the compiler reads.

    The interpreter is the reference: it knows nothing about runs of commands,
    apart from one thing.  When array bounds are checked, a run of head moves is
    checked once, where the run ends, because that is where the compiler emits
    the check. */
module BrainFLanguage {
  type Byte = i: int | 0 <= i < 256

  /** What a program does to the outside: characters written, and the error line. */
  datatype Event = PutChar(b: Byte) | PutLine(line: string)

  /** Everything a program can change: tape, head, remaining input and output so far. */
  datatype World = World(tape: seq<Byte>, head: int, input: seq<Byte>, output: seq<Event>) {
    predicate OnTape() {
      0 <= head < |tape|
    }

    function Cell(): Byte
      requires OnTape()
    {
      tape[head]
    }

    function Add(n: int): World
      requires OnTape()
    {
      this.(tape := tape[head := (tape[head] + n) % 256])
    }

    function SkipInput(): World {
      this.(input := if input == [] then [] else input[1..])
    }

    // getchar() returns -1 at the end of the input, which becomes 255 in a cell.
    function ReadCell(): World
      requires OnTape()
    {
      SkipInput().(tape := tape[head := if input == [] then 255 else input[0]])
    }

    function WriteCell(): World
      requires OnTape()
    {
      this.(output := output + [PutChar(tape[head])])
    }

    function ReportOffTape(): World {
      this.(output := output + [PutLine(OFF_TAPE)])
    }
  }

  const OFF_TAPE := "Error: The head has left the tape."

  function InitialWorld(mem: nat, input: seq<Byte>): World {
    World(seq(mem, _ => 0), mem / 2, input, [])
  }

  // ----- Reference interpreter ------------------------------------------------

  /** Running; Returned (normally or after the error line); Trapped: an access
      outside the tape, which the language leaves undefined; Stuck: a malformed
      program, reached by no balanced source. */
  datatype Status = Running | Returned | Trapped | Stuck

  datatype Ref = Ref(ip: nat, w: World, status: Status)

  predicate IsMove(c: char) { c == '<' || c == '>' }

  predicate IsChange(c: char) { c == '+' || c == '-' }

  predicate IsCommand(c: char) {
    IsMove(c) || IsChange(c) || c == ',' || c == '.' || c == '[' || c == ']'
  }

  /** Whether the next command at or after position i is another head move. */
  predicate MoveFollows(src: string, i: nat)
    decreases |src| - i
  {
    i < |src| && (IsMove(src[i]) || (!IsCommand(src[i]) && MoveFollows(src, i + 1)))
  }

  /** The position of the ']' that closes the bracket opened before i, with depth
      further brackets still open. */
  function CloseOf(src: string, i: nat, depth: nat): nat
    decreases |src| - i
  {
    if i >= |src| then |src|
    else if src[i] == '[' then CloseOf(src, i + 1, depth + 1)
    else if src[i] == ']' then (if depth == 0 then i else CloseOf(src, i + 1, depth - 1))
    else CloseOf(src, i + 1, depth)
  }

  /** The position of the '[' that is closed after i, scanning leftwards from i - 1. */
  function OpenOf(src: string, i: nat, depth: nat): nat
    requires i <= |src|
  {
    if i == 0 then |src|
    else if src[i - 1] == ']' then OpenOf(src, i - 1, depth + 1)
    else if src[i - 1] == '[' then (if depth == 0 then i - 1 else OpenOf(src, i - 1, depth - 1))
    else OpenOf(src, i - 1, depth)
  }

  function RefMove(src: string, checked: bool, s: Ref, d: int): Ref {
    var w := s.w.(head := s.w.head + d);
    if checked && !MoveFollows(src, s.ip + 1) && !w.OnTape() then
      Ref(s.ip + 1, w.ReportOffTape(), Returned)
    else
      Ref(s.ip + 1, w, Running)
  }

  /** One command of the running program. */
  function RefStep(src: string, checked: bool, s: Ref): Ref {
    if s.status != Running then s
    else if s.ip >= |src| then s.(status := Returned)
    else
      var c := src[s.ip];
      if c == '<' then RefMove(src, checked, s, -1)
      else if c == '>' then RefMove(src, checked, s, 1)
      else if !IsCommand(c) then s.(ip := s.ip + 1)
      else if c == ']' then s.(ip := OpenOf(src, s.ip, 0))
      else if !s.w.OnTape() then
        // *h = getchar() has already taken its character when the store goes wrong.
        s.(status := Trapped, w := if c == ',' then s.w.SkipInput() else s.w)
      else if c == '+' then Ref(s.ip + 1, s.w.Add(1), Running)
      else if c == '-' then Ref(s.ip + 1, s.w.Add(-1), Running)
      else if c == ',' then Ref(s.ip + 1, s.w.ReadCell(), Running)
      else if c == '.' then Ref(s.ip + 1, s.w.WriteCell(), Running)
      else if s.w.Cell() == 0 then s.(ip := CloseOf(src, s.ip + 1, 0) + 1)
      else s.(ip := s.ip + 1)
  }

  function RefRun(src: string, checked: bool, n: nat, s: Ref): Ref
  {
    if n == 0 then s else RefRun(src, checked, n - 1, RefStep(src, checked, s))
  }

  lemma {:induction false} RefRunAdd(src: string, checked: bool, m: nat, n: nat, s: Ref)
    ensures RefRun(src, checked, m + n, s) == RefRun(src, checked, n, RefRun(src, checked, m, s))
  {
    if m > 0 {
      RefRunAdd(src, checked, m - 1, n, RefStep(src, checked, s));
    }
  }

  lemma {:induction false} RefHaltedStays(src: string, checked: bool, n: nat, s: Ref)
    requires s.status != Running
    ensures RefRun(src, checked, n, s) == s
  {
    if n > 0 {
      RefHaltedStays(src, checked, n - 1, s);
    }
  }

  lemma {:induction false} RefOutputGrows(src: string, checked: bool, n: nat, s: Ref)
    ensures s.w.output <= RefRun(src, checked, n, s).w.output
  {
    if n > 0 {
      RefOutputGrows(src, checked, n - 1, RefStep(src, checked, s));
    }
  }

  // ----- Fused commands --------------------------------------------------------

  datatype Cmd = Change(n: int) | Move(n: int) | Read | Write | Loop(body: seq<Cmd>)

  datatype ParseResult = Parsed(cmds: seq<Cmd>, pos: nat) | Unbalanced

  /** What character c adds to a run of head moves (moves) or of cell changes. */
  function Delta(moves: bool, c: char): int {
    if moves then (if c == '>' then 1 else if c == '<' then -1 else 0)
    else (if c == '+' then 1 else if c == '-' then -1 else 0)
  }

  predicate InRun(moves: bool, c: char) {
    if moves then IsMove(c) else IsChange(c)
  }

  /** Where a run of moves (or changes) that reaches position i ends: at the next
      command of another kind.  Other characters are skipped. */
  function RunEnd(src: string, i: nat, moves: bool): (e: nat)
    requires i <= |src|
    ensures i <= e <= |src|
    decreases |src| - i
  {
    if i < |src| && (InRun(moves, src[i]) || !IsCommand(src[i])) then RunEnd(src, i + 1, moves) else i
  }

  /** The sum of the run from position i on. */
  function RunSum(src: string, i: nat, moves: bool): int
    requires i <= |src|
    decreases |src| - i
  {
    if i < |src| && (InRun(moves, src[i]) || !IsCommand(src[i]))
    then Delta(moves, src[i]) + RunSum(src, i + 1, moves) else 0
  }

  /** The fused commands from pos up to the end of the text or an unmatched ']'. */
  function ParseSeq(src: string, pos: nat): (r: ParseResult)
    requires pos <= |src|
    ensures r.Parsed? ==> pos <= r.pos <= |src| && (r.pos < |src| ==> src[r.pos] == ']')
    decreases |src| - pos
  {
    if pos == |src| || src[pos] == ']' then Parsed([], pos)
    else if IsMove(src[pos]) || IsChange(src[pos]) then
      var moves := IsMove(src[pos]);
      var n := RunSum(src, pos, moves);
      Prepend(if moves then Move(n) else Change(n), ParseSeq(src, RunEnd(src, pos + 1, moves)))
    else if src[pos] == ',' then Prepend(Read, ParseSeq(src, pos + 1))
    else if src[pos] == '.' then Prepend(Write, ParseSeq(src, pos + 1))
    else if src[pos] == '[' then
      var body := ParseSeq(src, pos + 1);
      if body.Unbalanced? || body.pos == |src| then Unbalanced
      else Prepend(Loop(body.cmds), ParseSeq(src, body.pos + 1))
    else ParseSeq(src, pos + 1)
  }

  function Prepend(cmd: Cmd, r: ParseResult): ParseResult {
    if r.Unbalanced? then r else Parsed([cmd] + r.cmds, r.pos)
  }

  /** A whole program: nothing may be left over. */
  function ParseProgram(src: string): ParseResult {
    var r := ParseSeq(src, 0);
    if r.Parsed? && r.pos == |src| then r else Unbalanced
  }

  // ----- Meaning of fused commands ---------------------------------------------

  /** How far evaluation got: to the end, to the error line, to an undefined access,
      or only until the loop budget was used up. */
  datatype Outcome = Done(w: World) | Reported(w: World) | Undefined(w: World) | Timeout(w: World)

  function Eval(checked: bool, cmds: seq<Cmd>, w: World, fuel: nat): Outcome
    decreases fuel, cmds, 1
  {
    if cmds == [] then Done(w)
    else match EvalCmd(checked, cmds[0], w, fuel)
      case Done(w') => Eval(checked, cmds[1..], w', fuel)
      case Reported(w') => Reported(w')
      case Undefined(w') => Undefined(w')
      case Timeout(w') => Timeout(w')
  }

  function EvalCmd(checked: bool, cmd: Cmd, w: World, fuel: nat): Outcome
    decreases fuel, cmd, 0
  {
    match cmd
    case Move(n) =>
      var w' := w.(head := w.head + n);
      if checked && !w'.OnTape() then Reported(w'.ReportOffTape()) else Done(w')
    case Change(n) => if w.OnTape() then Done(w.Add(n)) else Undefined(w)
    case Read => if w.OnTape() then Done(w.ReadCell()) else Undefined(w.SkipInput())
    case Write => if w.OnTape() then Done(w.WriteCell()) else Undefined(w)
    case Loop(body) =>
      if !w.OnTape() then Undefined(w)
      else if w.Cell() == 0 then Done(w)
      else if fuel == 0 then Timeout(w)
      else match Eval(checked, body, w, fuel - 1)
        case Done(w') => EvalCmd(checked, cmd, w', fuel - 1)
        case Reported(w') => Reported(w')
        case Undefined(w') => Undefined(w')
        case Timeout(w') => Timeout(w')
  }

  /** The interpreter's state that corresponds to an outcome whose commands end at pos. */
  predicate RefReached(s: Ref, o: Outcome, pos: nat) {
    match o
    case Done(w) => s == Ref(pos, w, Running)
    case Reported(w) => s.status == Returned && s.w == w
    case Undefined(w) => s.status == Trapped && s.w == w
    case Timeout(w) => s.status == Running && s.w == w
  }
}
