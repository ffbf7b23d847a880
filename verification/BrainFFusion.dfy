/** Reading commands in fused runs does not change what a program means: the fused
    commands and the character interpreter reach the same states, errors included. */
module BrainFFusion {
  import opened BrainFLanguage

  // ----- Bracket scans see parsed text as closed --------------------------------

  lemma {:induction false} ScanRun(src: string, i: nat, moves: bool, depth: nat)
    requires i <= |src|
    ensures CloseOf(src, i, depth) == CloseOf(src, RunEnd(src, i, moves), depth)
    ensures OpenOf(src, RunEnd(src, i, moves), depth) == OpenOf(src, i, depth)
    decreases |src| - i
  {
    if i < |src| && (InRun(moves, src[i]) || !IsCommand(src[i])) {
      ScanRun(src, i + 1, moves, depth);
    }
  }

  /** Parsed text leaves both bracket scans at the depth they came with. */
  lemma {:induction false} ScanParsed(src: string, pos: nat, depth: nat)
    requires pos <= |src| && ParseSeq(src, pos).Parsed?
    ensures var e := ParseSeq(src, pos).pos;
      && CloseOf(src, pos, depth) == CloseOf(src, e, depth)
      && OpenOf(src, e, depth) == OpenOf(src, pos, depth)
    decreases |src| - pos
  {
    if pos == |src| || src[pos] == ']' {
    } else if IsMove(src[pos]) || IsChange(src[pos]) {
      var moves := IsMove(src[pos]);
      ScanRun(src, pos + 1, moves, depth);
      ScanParsed(src, RunEnd(src, pos + 1, moves), depth);
    } else if src[pos] == '[' {
      var q := ParseSeq(src, pos + 1).pos;
      ScanParsed(src, pos + 1, depth + 1);
      ScanParsed(src, q + 1, depth);
    } else {
      ScanParsed(src, pos + 1, depth);
    }
  }

  /** The brackets of a parsed loop point at each other. */
  lemma {:induction false} LoopBrackets(src: string, pos: nat)
    requires pos < |src| && src[pos] == '['
    requires ParseSeq(src, pos + 1).Parsed? && ParseSeq(src, pos + 1).pos < |src|
    ensures CloseOf(src, pos + 1, 0) == ParseSeq(src, pos + 1).pos
    ensures OpenOf(src, ParseSeq(src, pos + 1).pos, 0) == pos
  {
    ScanParsed(src, pos + 1, 0);
  }

  // ----- Runs --------------------------------------------------------------------

  lemma AddTwice(w: World, a: int, b: int)
    requires w.OnTape()
    ensures w.Add(a).OnTape() && w.Add(a).Add(b) == w.Add(a + b)
    ensures w.Add(0) == w
  {
    assert ((w.tape[w.head] + a) % 256 + b) % 256 == (w.tape[w.head] + (a + b)) % 256;
    assert w.Add(a).Add(b).tape == w.Add(a + b).tape;
    assert w.Add(0).tape == w.tape;
  }

  lemma {:induction false} ChangeRun(src: string, checked: bool, i: nat, w: World) returns (n: nat)
    requires i <= |src| && w.OnTape()
    ensures RefRun(src, checked, n, Ref(i, w, Running))
         == Ref(RunEnd(src, i, false), w.Add(RunSum(src, i, false)), Running)
    decreases |src| - i
  {
    if i < |src| && (IsChange(src[i]) || !IsCommand(src[i])) {
      var d := Delta(false, src[i]);
      AddTwice(w, d, RunSum(src, i + 1, false));
      var m := ChangeRun(src, checked, i + 1, w.Add(d));
      n := m + 1;
      assert RefStep(src, checked, Ref(i, w, Running)) == Ref(i + 1, w.Add(d), Running);
    } else {
      n := 0;
      AddTwice(w, 0, 0);
    }
  }

  lemma {:induction false} SkipRest(src: string, checked: bool, i: nat, w: World) returns (n: nat)
    requires i <= |src| && !MoveFollows(src, i)
    ensures RunSum(src, i, true) == 0
    ensures RefRun(src, checked, n, Ref(i, w, Running)) == Ref(RunEnd(src, i, true), w, Running)
    decreases |src| - i
  {
    if i < |src| && !IsCommand(src[i]) {
      var m := SkipRest(src, checked, i + 1, w);
      n := m + 1;
    } else {
      n := 0;
    }
  }

  lemma {:induction false} MoveRun(src: string, checked: bool, i: nat, w: World) returns (n: nat)
    requires MoveFollows(src, i)
    ensures RefReached(RefRun(src, checked, n, Ref(i, w, Running)),
                       EvalCmd(checked, Move(RunSum(src, i, true)), w, 0), RunEnd(src, i, true))
    decreases |src| - i
  {
    var d := Delta(true, src[i]);
    var w1 := w.(head := w.head + d);
    assert RunSum(src, i, true) == d + RunSum(src, i + 1, true);
    if MoveFollows(src, i + 1) {
      var m := MoveRun(src, checked, i + 1, w1);
      n := m + 1;
      assert RefStep(src, checked, Ref(i, w, Running)) == Ref(i + 1, w1, Running);
    } else {
      var m := SkipRest(src, checked, i + 1, w1);
      n := if checked && !w1.OnTape() then 1 else m + 1;
    }
  }

  // ----- The simulation -----------------------------------------------------------

  ghost predicate FusedAgrees(src: string, checked: bool, n: nat, pos: nat, w: World, o: Outcome, e: nat, fuel: nat) {
    && RefReached(RefRun(src, checked, n, Ref(pos, w, Running)), o, e)
    && (o.Timeout? ==> n >= fuel)
  }

  lemma Chain(src: string, checked: bool, m: nat, n: nat, pos: nat, w: World, mid: nat, w1: World, o: Outcome, e: nat, fuel: nat)
    requires RefRun(src, checked, m, Ref(pos, w, Running)) == Ref(mid, w1, Running)
    requires FusedAgrees(src, checked, n, mid, w1, o, e, fuel)
    ensures FusedAgrees(src, checked, m + n, pos, w, o, e, fuel)
  {
    RefRunAdd(src, checked, m, n, Ref(pos, w, Running));
  }

  /** The head of a sequence, then the rest. */
  lemma {:induction false} SeqStep(src: string, checked: bool, cmd: Cmd, rest: nat, pos: nat, w: World, fuel: nat, m: nat)
    returns (n: nat)
    requires pos < rest <= |src| && ParseSeq(src, rest).Parsed?
    requires FusedAgrees(src, checked, m, pos, w, EvalCmd(checked, cmd, w, fuel), rest, fuel)
    ensures var p := ParseSeq(src, rest);
      FusedAgrees(src, checked, n, pos, w, Eval(checked, [cmd] + p.cmds, w, fuel), p.pos, fuel)
    decreases fuel, |src| - pos, 0
  {
    var p := ParseSeq(src, rest);
    assert ([cmd] + p.cmds)[1..] == p.cmds;
    match EvalCmd(checked, cmd, w, fuel)
    case Done(w1) =>
      var k := Simulate(src, checked, rest, w1, fuel);
      n := m + k;
      Chain(src, checked, m, k, pos, w, rest, w1, Eval(checked, p.cmds, w1, fuel), p.pos, fuel);
    case _ =>
      n := m;
  }

  /** From pos, the interpreter reaches what evaluating the fused commands says. */
  lemma {:induction false} Simulate(src: string, checked: bool, pos: nat, w: World, fuel: nat) returns (n: nat)
    requires pos <= |src| && ParseSeq(src, pos).Parsed?
    ensures var p := ParseSeq(src, pos);
      FusedAgrees(src, checked, n, pos, w, Eval(checked, p.cmds, w, fuel), p.pos, fuel)
    decreases fuel, |src| - pos, 1
  {
    var p := ParseSeq(src, pos);
    if pos == |src| || src[pos] == ']' {
      n := 0;
    } else if IsMove(src[pos]) {
      var m := MoveRun(src, checked, pos, w);
      n := SeqStep(src, checked, Move(RunSum(src, pos, true)), RunEnd(src, pos + 1, true), pos, w, fuel, m);
    } else if IsChange(src[pos]) {
      var m := 1;
      if w.OnTape() {
        m := ChangeRun(src, checked, pos, w);
      } else {
        assert RefRun(src, checked, 0, RefStep(src, checked, Ref(pos, w, Running))).status == Trapped;
      }
      n := SeqStep(src, checked, Change(RunSum(src, pos, false)), RunEnd(src, pos + 1, false), pos, w, fuel, m);
    } else if src[pos] == '[' {
      var m := SimulateLoop(src, checked, pos, w, fuel);
      var body := ParseSeq(src, pos + 1);
      n := SeqStep(src, checked, Loop(body.cmds), body.pos + 1, pos, w, fuel, m);
    } else {
      var s := RefStep(src, checked, Ref(pos, w, Running));
      assert RefRun(src, checked, 1, Ref(pos, w, Running)) == RefRun(src, checked, 0, s);
      if src[pos] == ',' {
        n := SeqStep(src, checked, Read, pos + 1, pos, w, fuel, 1);
      } else if src[pos] == '.' {
        n := SeqStep(src, checked, Write, pos + 1, pos, w, fuel, 1);
      } else {
        var k := Simulate(src, checked, pos + 1, w, fuel);
        n := k + 1;
      }
    }
  }

  /** After the body, one step back to the bracket. */
  lemma BackAtBracket(src: string, checked: bool, pos: nat, w: World, m: nat, end: nat, w1: World)
    requires RefStep(src, checked, Ref(pos, w, Running)) == Ref(pos + 1, w, Running)
    requires RefRun(src, checked, m, Ref(pos + 1, w, Running)) == Ref(end, w1, Running)
    requires RefStep(src, checked, Ref(end, w1, Running)) == Ref(pos, w1, Running)
    ensures RefRun(src, checked, m + 2, Ref(pos, w, Running)) == Ref(pos, w1, Running)
  {
    var s, s1 := Ref(pos + 1, w, Running), Ref(end, w1, Running);
    RefRunAdd(src, checked, m, 1, s);
    assert RefRun(src, checked, 1, s1) == RefRun(src, checked, 0, RefStep(src, checked, s1));
    assert RefRun(src, checked, m + 2, Ref(pos, w, Running)) == RefRun(src, checked, m + 1, s);
  }

  lemma {:induction false} SimulateLoop(src: string, checked: bool, pos: nat, w: World, fuel: nat) returns (n: nat)
    requires pos < |src| && src[pos] == '['
    requires ParseSeq(src, pos + 1).Parsed? && ParseSeq(src, pos + 1).pos < |src|
    ensures var p := ParseSeq(src, pos + 1);
      FusedAgrees(src, checked, n, pos, w, EvalCmd(checked, Loop(p.cmds), w, fuel), p.pos + 1, fuel)
    decreases fuel, |src| - pos, 0
  {
    var p := ParseSeq(src, pos + 1);
    LoopBrackets(src, pos);
    OneRefStep(src, checked, Ref(pos, w, Running));
    if !w.OnTape() || w.Cell() == 0 {
      n := 1;
    } else if fuel == 0 {
      n := 0;
    } else {
      var m := Simulate(src, checked, pos + 1, w, fuel - 1);
      var o := Eval(checked, p.cmds, w, fuel - 1);
      if o.Done? {
        BackAtBracket(src, checked, pos, w, m, p.pos, o.w);
        var k := SimulateLoop(src, checked, pos, o.w, fuel - 1);
        n := (m + 2) + k;
        AgreesAgain(src, checked, m + 2, k, pos, pos, w, o.w, EvalCmd(checked, Loop(p.cmds), o.w, fuel - 1), p.pos + 1, fuel - 1);
      } else {
        n := 1 + m;
        AgreesAgain(src, checked, 1, m, pos, pos + 1, w, w, o, p.pos + 1, fuel - 1);
      }
    }
  }

  lemma OneRefStep(src: string, checked: bool, s: Ref)
    ensures RefRun(src, checked, 1, s) == RefStep(src, checked, s)
  {
    assert RefRun(src, checked, 1, s) == RefRun(src, checked, 0, RefStep(src, checked, s));
  }

  /** What agrees from some point agrees from an earlier one, with the steps in between. */
  lemma AgreesAgain(src: string, checked: bool, m: nat, k: nat, pos: nat, mid: nat, w: World, w1: World, o: Outcome, e: nat, fuel: nat)
    requires RefRun(src, checked, m, Ref(pos, w, Running)) == Ref(mid, w1, Running) && m > 0
    requires FusedAgrees(src, checked, k, mid, w1, o, e, fuel)
    ensures FusedAgrees(src, checked, m + k, pos, w, o, e, fuel + 1)
  {
    RefRunAdd(src, checked, m, k, Ref(pos, w, Running));
  }

  // ----- Compilation succeeds exactly on balanced text ---------------------------

  /** The bracket depth of src[i..] counted from depth never goes below zero and ends at zero. */
  predicate BalancedFrom(src: string, i: nat, depth: nat)
    requires i <= |src|
    decreases |src| - i
  {
    if i == |src| then depth == 0
    else if src[i] == '[' then BalancedFrom(src, i + 1, depth + 1)
    else if src[i] == ']' then depth > 0 && BalancedFrom(src, i + 1, depth - 1)
    else BalancedFrom(src, i + 1, depth)
  }

  lemma {:induction false} BalancedRun(src: string, i: nat, moves: bool, depth: nat)
    requires i <= |src|
    ensures BalancedFrom(src, i, depth) == BalancedFrom(src, RunEnd(src, i, moves), depth)
    decreases |src| - i
  {
    if i < |src| && (InRun(moves, src[i]) || !IsCommand(src[i])) {
      BalancedRun(src, i + 1, moves, depth);
    }
  }

  lemma {:induction false} ParsedKeepsBalance(src: string, pos: nat, depth: nat)
    requires pos <= |src|
    ensures var r := ParseSeq(src, pos);
      if r.Parsed? then BalancedFrom(src, pos, depth) == BalancedFrom(src, r.pos, depth)
      else !BalancedFrom(src, pos, depth)
    decreases |src| - pos
  {
    if pos == |src| || src[pos] == ']' {
    } else if IsMove(src[pos]) || IsChange(src[pos]) {
      var moves := IsMove(src[pos]);
      BalancedRun(src, pos + 1, moves, depth);
      ParsedKeepsBalance(src, RunEnd(src, pos + 1, moves), depth);
    } else if src[pos] == '[' {
      ParsedKeepsBalance(src, pos + 1, depth + 1);
      var body := ParseSeq(src, pos + 1);
      if body.Parsed? && body.pos < |src| {
        ParsedKeepsBalance(src, body.pos + 1, depth);
      }
    } else {
      ParsedKeepsBalance(src, pos + 1, depth);
    }
  }

  /** A program is accepted exactly when its brackets are balanced. */
  lemma {:induction false} AcceptedIffBalanced(src: string)
    ensures ParseProgram(src).Parsed? <==> BalancedFrom(src, 0, 0)
  {
    ParsedKeepsBalance(src, 0, 0);
  }

  // ----- The compiler's int counters ----------------------------------------------

  /** A run sums to at most the number of characters left, so a text shorter than
      2^31 characters never overflows the 32-bit counter. */
  lemma {:induction false} RunSumFits(src: string, i: nat, moves: bool)
    requires i <= |src|
    ensures -(|src| - i) <= RunSum(src, i, moves) <= |src| - i
    decreases |src| - i
  {
    if i < |src| && (InRun(moves, src[i]) || !IsCommand(src[i])) {
      RunSumFits(src, i + 1, moves);
    }
  }
}
