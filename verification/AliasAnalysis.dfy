/** The aggregation of alias analyses, and what its answers are worth. */
module AliasAnalysis {
  import opened Wrappers
  import opened AliasModel

  // ----- Facts for the loops with early exits -------------------------------------------------

  lemma {:induction false} AliasOfSkip(aas: seq<Analysis>, k: nat, l: Loc, m: Loc)
    requires k <= |aas| && forall j :: 0 <= j < k ==> aas[j].alias(l, m) == MayAlias
    ensures AliasOf(aas, l, m) == AliasOf(aas[k..], l, m)
  {
    if k > 0 {
      AliasOfSkip(aas[1..], k - 1, l, m);
      assert aas[1..][k - 1..] == aas[k..];
    }
  }

  lemma {:induction false} MeetOfPrefix(aas: seq<Analysis>, k: nat, answer: Analysis -> ModRef)
    requires k <= |aas|
    ensures Below(MeetOf(aas, answer), MeetOf(aas[..k], answer))
    decreases |aas|
  {
    if k < |aas| {
      MeetOfPrefix(aas[..|aas| - 1], k, answer);
      assert aas[..|aas| - 1][..k] == aas[..k];
    } else {
      assert aas[..k] == aas;
    }
  }

  lemma {:induction false} BehaviorOfPrefix(aas: seq<Analysis>, k: nat, c: Call)
    requires k <= |aas|
    ensures BelowBehavior(BehaviorOf(aas, c), BehaviorOf(aas[..k], c))
    decreases |aas|
  {
    if k < |aas| {
      BehaviorOfPrefix(aas[..|aas| - 1], k, c);
      assert aas[..|aas| - 1][..k] == aas[..k];
    } else {
      assert aas[..k] == aas;
    }
  }

  lemma {:induction false} SecondMasksGrow(aas: seq<Analysis>, c1: Call, c2: Call, n: nat, m: nat)
    requires n <= m <= |c2.args|
    ensures Below(SecondMasks(aas, c1, c2, n), SecondMasks(aas, c1, c2, m))
    decreases m
  {
    if n < m {
      SecondMasksGrow(aas, c1, c2, n, m - 1);
    }
  }

  lemma {:induction false} FirstMasksGrow(aas: seq<Analysis>, c1: Call, c2: Call, n: nat, m: nat)
    requires n <= m <= |c1.args|
    ensures Below(FirstMasks(aas, c1, c2, n), FirstMasks(aas, c1, c2, m))
    decreases m
  {
    if n < m {
      FirstMasksGrow(aas, c1, c2, n, m - 1);
    }
  }

  // ----- Instructions and calls, and ranges ------------------------------------------------------

  predicate FenceLike(i: Instr) {
    i.Fence? || i.CatchPad? || i.CatchRet? || i.Calling?
  }

  /** The answer for an instruction and a call. */
  function InstrCallOf(aas: seq<Analysis>, i: Instr, c: Call): ModRef
    requires !i.Other?
  {
    if i.Calling? then CallsOf(aas, i.call, c)
    else if FenceLike(i) then MOD_REF
    else if CallOf(aas, c, i.loc) != NO_MOD_REF then MOD_REF
    else NO_MOD_REF
  }

  predicate RangeOf(aas: seq<Analysis>, block: seq<Instr>, first: nat, last: nat, l: Loc, mode: ModRef)
    requires first <= last < |block|
  {
    exists k :: first <= k <= last && Meet(OptionalOf(aas, block[k], Some(l)), mode) != NO_MOD_REF
  }

  // ----- The aggregation --------------------------------------------------------------------------

  class AAResults {
    var analyses: seq<Analysis>

    constructor ()
      ensures analyses == []
    {
      analyses := [];
    }

    method AddAAResult(a: Analysis)
      modifies this
      ensures analyses == old(analyses) + [a]
    {
      analyses := analyses + [a];
    }

    method Alias(l: Loc, m: Loc) returns (r: AliasResult)
      ensures r == AliasOf(analyses, l, m)
    {
      var k := 0;
      while k < |analyses|
        invariant 0 <= k <= |analyses| && forall j :: 0 <= j < k ==> analyses[j].alias(l, m) == MayAlias
      {
        r := analyses[k].alias(l, m);
        AliasOfSkip(analyses, k, l, m);
        if r != MayAlias {
          return;
        }
        k := k + 1;
      }
      AliasOfSkip(analyses, k, l, m);
      return MayAlias;
    }

    method PointsToConstantMemory(l: Loc, orLocal: bool) returns (r: bool)
      ensures r <==> ConstantOf(analyses, l, orLocal)
    {
      var k := 0;
      while k < |analyses|
        invariant 0 <= k <= |analyses| && forall j :: 0 <= j < k ==> !analyses[j].constant(l, orLocal)
      {
        if analyses[k].constant(l, orLocal) {
          return true;
        }
        k := k + 1;
      }
      return false;
    }

    method GetArgModRefInfo(c: Call, i: nat) returns (r: ModRef)
      ensures r == ArgOf(analyses, c, i)
    {
      ghost var answer := (a: Analysis) => a.arg(c, i);
      r := MOD_REF;
      var k := 0;
      while k < |analyses|
        invariant 0 <= k <= |analyses| && r == MeetOf(analyses[..k], answer)
      {
        assert analyses[..k + 1][..k] == analyses[..k];
        r := Meet(r, analyses[k].arg(c, i));
        if r == NO_MOD_REF {
          MeetOfPrefix(analyses, k + 1, answer);
          return;
        }
        k := k + 1;
      }
      assert analyses[..k] == analyses;
    }

    method GetModRefBehavior(c: Call) returns (r: Behavior)
      ensures r == BehaviorOf(analyses, c)
    {
      r := UNKNOWN;
      var k := 0;
      while k < |analyses|
        invariant 0 <= k <= |analyses| && r == BehaviorOf(analyses[..k], c)
      {
        assert analyses[..k + 1][..k] == analyses[..k];
        r := MeetBehavior(r, analyses[k].behavior(c));
        if r == DOES_NOT_ACCESS_MEMORY {
          BehaviorOfPrefix(analyses, k + 1, c);
          return;
        }
        k := k + 1;
      }
      assert analyses[..k] == analyses;
    }

    /** What all analyses say about a call and a location. */
    method MeetCall(c: Call, l: Loc) returns (r: ModRef)
      ensures r == MeetOf(analyses, (a: Analysis) => a.call(c, l))
    {
      ghost var answer := (a: Analysis) => a.call(c, l);
      r := MOD_REF;
      var k := 0;
      while k < |analyses|
        invariant 0 <= k <= |analyses| && r == MeetOf(analyses[..k], answer)
      {
        assert analyses[..k + 1][..k] == analyses[..k];
        r := Meet(r, analyses[k].call(c, l));
        if r == NO_MOD_REF {
          MeetOfPrefix(analyses, k + 1, answer);
          return;
        }
        k := k + 1;
      }
      assert analyses[..k] == analyses;
    }

    method GetModRefInfoOfCall(c: Call, l: Loc) returns (r: ModRef)
      ensures r == CallOf(analyses, c, l)
    {
      r := MeetCall(c, l);
      if r == NO_MOD_REF {
        return;
      }
      var b := GetModRefBehavior(c);
      if b == DOES_NOT_ACCESS_MEMORY || b == ONLY_ACCESSES_INACCESSIBLE_MEM {
        return NO_MOD_REF;
      }
      if !b.mod {
        r := r.(mod := false);
      } else if !b.ref {
        r := r.(ref := false);
      }
      if OnlyArgPointees(b) || OnlyInaccessibleOrArg(b) {
        var mask := NO_MOD_REF;
        if AccessesArgPointees(b) {
          var i := 0;
          while i < |c.args|
            invariant 0 <= i <= |c.args| && mask == ArgMasks(analyses, c, l, i)
          {
            if c.args[i].Some? {
              var alias := Alias(c.args[i].value, l);
              if alias != NoAlias {
                var arg := GetArgModRefInfo(c, i);
                mask := Join(mask, arg);
              }
            }
            i := i + 1;
          }
        }
        if mask == NO_MOD_REF {
          return NO_MOD_REF;
        }
        r := Meet(r, mask);
      }
      var constant := PointsToConstantMemory(l, false);
      if r.mod && constant {
        r := r.(mod := false);
      }
    }

    method MeetCalls(c1: Call, c2: Call) returns (r: ModRef)
      ensures r == MeetOf(analyses, (a: Analysis) => a.calls(c1, c2))
    {
      ghost var answer := (a: Analysis) => a.calls(c1, c2);
      r := MOD_REF;
      var k := 0;
      while k < |analyses|
        invariant 0 <= k <= |analyses| && r == MeetOf(analyses[..k], answer)
      {
        assert analyses[..k + 1][..k] == analyses[..k];
        r := Meet(r, analyses[k].calls(c1, c2));
        if r == NO_MOD_REF {
          MeetOfPrefix(analyses, k + 1, answer);
          return;
        }
        k := k + 1;
      }
      assert analyses[..k] == analyses;
    }

    /** The loop over the arguments of the second call, which stops as soon as it cannot add
        anything any more. */
    method ThroughSecond(c1: Call, c2: Call, result: ModRef) returns (r: ModRef)
      ensures r == Meet(SecondMasks(analyses, c1, c2, |c2.args|), result)
    {
      r := NO_MOD_REF;
      var i := 0;
      while i < |c2.args|
        invariant 0 <= i <= |c2.args| && r == Meet(SecondMasks(analyses, c1, c2, i), result)
      {
        if c2.args[i].Some? {
          var arg := GetArgModRefInfo(c2, i);
          var mask := if arg.mod then MOD_REF else if arg.ref then ModRef(true, false) else NO_MOD_REF;
          var other := GetModRefInfoOfCall(c1, c2.args[i].value);
          r := Meet(Join(r, Meet(mask, other)), result);
          if r == result {
            SecondMasksGrow(analyses, c1, c2, i + 1, |c2.args|);
            return;
          }
        }
        i := i + 1;
      }
    }

    /** The same over the arguments of the first call. */
    method ThroughFirst(c1: Call, c2: Call, result: ModRef) returns (r: ModRef)
      ensures r == Meet(FirstMasks(analyses, c1, c2, |c1.args|), result)
    {
      r := NO_MOD_REF;
      var i := 0;
      while i < |c1.args|
        invariant 0 <= i <= |c1.args| && r == Meet(FirstMasks(analyses, c1, c2, i), result)
      {
        if c1.args[i].Some? {
          var arg := GetArgModRefInfo(c1, i);
          var other := GetModRefInfoOfCall(c2, c1.args[i].value);
          if (arg.mod && other != NO_MOD_REF) || (arg.ref && other.mod) {
            r := Meet(Join(r, arg), result);
          }
          if r == result {
            FirstMasksGrow(analyses, c1, c2, i + 1, |c1.args|);
            return;
          }
        }
        i := i + 1;
      }
    }

    method GetModRefInfoOfCalls(c1: Call, c2: Call) returns (r: ModRef)
      ensures r == CallsOf(analyses, c1, c2)
    {
      var result := MeetCalls(c1, c2);
      if result == NO_MOD_REF {
        return NO_MOD_REF;
      }
      var b1 := GetModRefBehavior(c1);
      if b1 == DOES_NOT_ACCESS_MEMORY {
        return NO_MOD_REF;
      }
      var b2 := GetModRefBehavior(c2);
      if b2 == DOES_NOT_ACCESS_MEMORY || (!b1.mod && !b2.mod) {
        return NO_MOD_REF;
      }
      if !b1.mod {
        result := result.(mod := false);
      } else if !b1.ref {
        result := result.(ref := false);
      }
      if OnlyArgPointees(b2) {
        if !AccessesArgPointees(b2) {
          return NO_MOD_REF;
        }
        r := ThroughSecond(c1, c2, result);
      } else if OnlyArgPointees(b1) {
        if !AccessesArgPointees(b1) {
          return NO_MOD_REF;
        }
        r := ThroughFirst(c1, c2, result);
      } else {
        r := result;
      }
    }

    method GetModRefInfoOfInstr(i: Instr, l: Loc) returns (r: ModRef)
      ensures r == InstrOf(analyses, i, l)
    {
      match i {
        case Load(_, loc, o) =>
          if StrongerThanUnordered(o) {
            return MOD_REF;
          }
          if l.At? {
            var alias := Alias(loc, l);
            if alias == NoAlias {
              return NO_MOD_REF;
            }
          }
          return ModRef(false, true);
        case Store(_, loc, o) =>
          if StrongerThanUnordered(o) {
            return MOD_REF;
          }
          if l.At? {
            var alias := Alias(loc, l);
            if alias == NoAlias {
              return NO_MOD_REF;
            }
            var constant := PointsToConstantMemory(l, false);
            if constant {
              return NO_MOD_REF;
            }
          }
          return ModRef(true, false);
        case VAArg(_, loc) =>
          if l.At? {
            var alias := Alias(loc, l);
            if alias == NoAlias {
              return NO_MOD_REF;
            }
            var constant := PointsToConstantMemory(l, false);
            if constant {
              return NO_MOD_REF;
            }
          }
          return MOD_REF;
        case CmpXchg(_, loc, o) =>
          r := AtomicAccess(loc, o, l);
        case Rmw(_, loc, o) =>
          r := AtomicAccess(loc, o, l);
        case Fence(_) =>
          if l.At? {
            var constant := PointsToConstantMemory(l, false);
            if constant {
              return ModRef(false, true);
            }
          }
          return MOD_REF;
        case CatchPad(_) =>
          r := UnwindAccess(l);
        case CatchRet(_) =>
          r := UnwindAccess(l);
        case Calling(c) =>
          r := GetModRefInfoOfCall(c, l);
        case Other(_) =>
          return NO_MOD_REF;
      }
    }

    method AtomicAccess(loc: Loc, o: Ordering, l: Loc) returns (r: ModRef)
      ensures r == if !StrongerThanMonotonic(o) && l.At? && AliasOf(analyses, loc, l).NoAlias? then NO_MOD_REF else MOD_REF
    {
      if StrongerThanMonotonic(o) {
        return MOD_REF;
      }
      if l.At? {
        var alias := Alias(loc, l);
        if alias == NoAlias {
          return NO_MOD_REF;
        }
      }
      return MOD_REF;
    }

    method UnwindAccess(l: Loc) returns (r: ModRef)
      ensures r == if l.At? && ConstantOf(analyses, l, false) then NO_MOD_REF else MOD_REF
    {
      if l.At? {
        var constant := PointsToConstantMemory(l, false);
        if constant {
          return NO_MOD_REF;
        }
      }
      return MOD_REF;
    }

    method GetModRefInfo(i: Instr, l: Option<Loc>) returns (r: ModRef)
      ensures r == OptionalOf(analyses, i, l)
    {
      if l.None? && i.Calling? {
        var b := GetModRefBehavior(i.call);
        return ModRef(b.mod, b.ref);
      }
      r := GetModRefInfoOfInstr(i, if l.Some? then l.value else Anywhere);
    }

    method GetModRefInfoOfInstrAndCall(i: Instr, c: Call) returns (r: ModRef)
      requires !i.Other?
      ensures r == InstrCallOf(analyses, i, c)
      ensures i.Fence? || i.CatchPad? || i.CatchRet? ==> r == MOD_REF
      ensures i.Load? || i.Store? || i.VAArg? || i.CmpXchg? || i.Rmw? ==>
        r == if CallOf(analyses, c, i.loc) == NO_MOD_REF then NO_MOD_REF else MOD_REF
    {
      if i.Calling? {
        r := GetModRefInfoOfCalls(i.call, c);
      } else if FenceLike(i) {
        r := MOD_REF;
      } else {
        var touched := GetModRefInfoOfCall(c, i.loc);
        r := if touched != NO_MOD_REF then MOD_REF else NO_MOD_REF;
      }
    }

    method CanInstructionRangeModRef(block: seq<Instr>, first: nat, last: nat, l: Loc, mode: ModRef) returns (can: bool)
      requires first <= last < |block|
      ensures can <==> RangeOf(analyses, block, first, last, l, mode)
      ensures can <==> exists k :: first <= k <= last && var r := OptionalOf(analyses, block[k], Some(l));
        (r.mod && mode.mod) || (r.ref && mode.ref)
    {
      var k := first;
      while k != last + 1
        invariant first <= k <= last + 1
        invariant forall j :: first <= j < k ==> Meet(OptionalOf(analyses, block[j], Some(l)), mode) == NO_MOD_REF
        decreases last + 1 - k
      {
        var r := GetModRefInfo(block[k], Some(l));
        if Meet(r, mode) != NO_MOD_REF {
          return true;
        }
        k := k + 1;
      }
      return false;
    }

    method CanBasicBlockModify(block: seq<Instr>, l: Loc) returns (can: bool)
      requires block != []
      ensures can <==> RangeOf(analyses, block, 0, |block| - 1, l, ModRef(true, false))
    {
      can := CanInstructionRangeModRef(block, 0, |block| - 1, l, ModRef(true, false));
    }
  }

  // ----- What the answers are worth -----------------------------------------------------------------

  /** No instruction modifies memory that one of them is assumed not to touch. */
  lemma NoModOfConstant(w: World, aas: seq<Analysis>, i: Instr, l: Loc)
    requires Plausible(w) && AllSound(w, aas) && AssumedUntouched(aas, i, l)
    ensures !Need(InstrEffect(w, i), w.bytes(l)).mod
  {
    ConstantOfSound(w, aas, l);
    assert InstrPlausible(w, i);
    var e := InstrEffect(w, i);
    assert forall a :: a in e.mods * w.bytes(l) ==> a in e.mods * w.constant;
  }

  /** Whether a range holds an instruction that does read a constant location it is assumed not to touch. */
  ghost predicate MissedRead(w: World, aas: seq<Analysis>, block: seq<Instr>, first: nat, last: nat, l: Loc)
    requires first <= last < |block|
  {
    exists k :: first <= k <= last && AssumedUntouched(aas, block[k], l) && Need(InstrEffect(w, block[k]), w.bytes(l)).ref
  }

  /** A negative answer about one instruction is right unless reads are asked for and the instruction
      reads a constant location it is assumed not to touch. */
  lemma NoneOfSound(w: World, aas: seq<Analysis>, i: Instr, l: Loc, mode: ModRef)
    requires Plausible(w) && AllSound(w, aas)
    requires Meet(OptionalOf(aas, i, Some(l)), mode) == NO_MOD_REF
    ensures Meet(Need(InstrEffect(w, i), w.bytes(l)), mode) == NO_MOD_REF
      <==> !(mode.ref && AssumedUntouched(aas, i, l) && Need(InstrEffect(w, i), w.bytes(l)).ref)
  {
    InstrOfSound(w, aas, i, l);
    if AssumedUntouched(aas, i, l) {
      NoModOfConstant(w, aas, i, l);
    }
  }

  /** After a negative answer about a range, no instruction of it has the effect asked for, if and only
      if the question was not about reads or nothing in the range reads a constant location it is
      assumed not to touch. */
  lemma RangeOfSound(w: World, aas: seq<Analysis>, block: seq<Instr>, first: nat, last: nat, l: Loc, mode: ModRef)
    requires Plausible(w) && AllSound(w, aas)
    requires first <= last < |block| && !RangeOf(aas, block, first, last, l, mode)
    ensures (forall k :: first <= k <= last ==> Meet(Need(InstrEffect(w, block[k]), w.bytes(l)), mode) == NO_MOD_REF)
      <==> !(mode.ref && MissedRead(w, aas, block, first, last, l))
  {
    forall k | first <= k <= last
      ensures Meet(Need(InstrEffect(w, block[k]), w.bytes(l)), mode) == NO_MOD_REF
        <==> !(mode.ref && AssumedUntouched(aas, block[k], l) && Need(InstrEffect(w, block[k]), w.bytes(l)).ref)
    {
      assert Meet(OptionalOf(aas, block[k], Some(l)), mode) == NO_MOD_REF;
      NoneOfSound(w, aas, block[k], l, mode);
    }
  }

  /** What a caller can check beforehand: the question is not about reads, or the location is not
      reported constant, or the range holds no instruction that is assumed to spare constants. */
  lemma RangeOfGuarded(w: World, aas: seq<Analysis>, block: seq<Instr>, first: nat, last: nat, l: Loc, mode: ModRef)
    requires Plausible(w) && AllSound(w, aas)
    requires first <= last < |block| && !RangeOf(aas, block, first, last, l, mode)
    requires mode.ref ==> forall k :: first <= k <= last ==> !AssumedUntouched(aas, block[k], l)
    ensures forall k :: first <= k <= last ==> Meet(Need(InstrEffect(w, block[k]), w.bytes(l)), mode) == NO_MOD_REF
  {
    RangeOfSound(w, aas, block, first, last, l, mode);
  }

  /** A block that is said not to modify a location does not. */
  lemma BlockDoesNotModify(w: World, aas: seq<Analysis>, block: seq<Instr>, l: Loc)
    requires Plausible(w) && AllSound(w, aas) && block != []
    requires !RangeOf(aas, block, 0, |block| - 1, l, ModRef(true, false))
    ensures forall k :: 0 <= k < |block| ==> InstrEffect(w, block[k]).mods * w.bytes(l) == iset{}
  {
    RangeOfGuarded(w, aas, block, 0, |block| - 1, l, ModRef(true, false));
    forall k | 0 <= k < |block| ensures InstrEffect(w, block[k]).mods * w.bytes(l) == iset{} {
      assert Meet(Need(InstrEffect(w, block[k]), w.bytes(l)), ModRef(true, false)) == NO_MOD_REF;
    }
  }

  /** An instruction and a call: sound if the instruction orders nothing else. */
  lemma InstrCallOfSound(w: World, aas: seq<Analysis>, i: Instr, c: Call)
    requires Plausible(w) && AllSound(w, aas) && !i.Other? && !Orders(i)
    ensures Below(Depends(InstrEffect(w, i), CallEffect(w, c)), InstrCallOf(aas, i, c))
  {
    assert InstrPlausible(w, i);
    if i.Calling? {
      CallsOfSound(w, aas, i.call, c);
    } else if !FenceLike(i) {
      DependsOwn(w.instr(i), CallEffect(w, c), w.bytes(i.loc));
      CallOfSound(w, aas, c, i.loc);
    }
  }

  ghost predicate InstrCallSound(w: World, aas: seq<Analysis>, i: Instr, c: Call)
    requires !i.Other?
  {
    Plausible(w) && AllSound(w, aas) ==> Below(Depends(InstrEffect(w, i), CallEffect(w, c)), InstrCallOf(aas, i, c))
  }

  /** The answer for an instruction and a call can be relied on exactly for the instructions
      that do not order accesses to other locations. */
  lemma InstrCallExact(i: Instr)
    requires !i.Other?
    ensures (forall w, aas, c :: InstrCallSound(w, aas, i, c)) <==> !Orders(i)
  {
    if Orders(i) {
      var w, aas, c := OrderingMissed(i);
      assert !InstrCallSound(w, aas, i, c);
    } else {
      forall w, aas, c ensures InstrCallSound(w, aas, i, c) {
        if Plausible(w) && AllSound(w, aas) {
          InstrCallOfSound(w, aas, i, c);
        }
      }
    }
  }

  /** An access that orders others, and a call with an effect somewhere else. */
  lemma OrderingMissed(i: Instr) returns (w: World, aas: seq<Analysis>, c: Call)
    requires Orders(i)
    ensures Plausible(w) && AllSound(w, aas) && !Below(Depends(InstrEffect(w, i), CallEffect(w, c)), InstrCallOf(aas, i, c))
  {
    var one: iset<Addr> := iset{1};
    w := World((l: Loc) => iset{0}, (c: Call, k: nat) => NO_EFFECT, (c: Call) => NO_EFFECT, (c: Call) => Effect(one, iset{}),
               (j: Instr) => if j == i then Effect(iset{}, one) else NO_EFFECT, iset{}, iset{}, iset{});
    var a := Analysis((l: Loc, m: Loc) => MayAlias, (l: Loc, b: bool) => false, (c: Call, k: nat) => MOD_REF,
                      (c: Call, l: Loc) => NO_MOD_REF, (c: Call, d: Call) => MOD_REF, (c: Call) => UNKNOWN);
    aas, c := [a], Call(0, []);
    forall d: Call ensures CallEffect(w, d) == Effect(one, iset{}) {
      ArgsNoEffect(w, d, |d.args|);
    }
    forall d: Call ensures CallPlausible(w, d) {
    }
    forall j: Instr ensures InstrPlausible(w, j) {
    }
    forall l: Loc ensures Apart(w, l) {
    }
    forall d: Call, l: Loc ensures CallSound(w, a, d, l) {
      assert one * iset{0} == iset{};
    }
    forall d: Call, k: nat ensures ArgSound(w, a, d, k) {
    }
    forall d: Call, e: Call ensures CallsSound(w, a, d, e) {
    }
    forall d: Call ensures BehaviorSound(w, a, d) {
    }
    assert Sound(w, a) && AllSound(w, aas);
    assert MeetOf([a][..0], (b: Analysis) => b.call(c, i.loc)) == MOD_REF;
    assert 1 in one * one;
  }

  lemma {:induction false} ArgsNoEffect(w: World, c: Call, n: nat)
    requires n <= |c.args| && forall k: nat :: w.throughArg(c, k) == NO_EFFECT
    ensures ArgsEffect(w, c, n) == NO_EFFECT
  {
    if n > 0 {
      ArgsNoEffect(w, c, n - 1);
    }
  }

  /** For each instruction that is assumed to spare constants: an execution in which it reads one,
      and an analysis that knows the constant. */
  lemma ConstantReadMissed(i: Instr) returns (w: World, aas: seq<Analysis>, l: Loc)
    requires SparesConstants(i)
    ensures Plausible(w) && AllSound(w, aas)
    ensures Need(InstrEffect(w, i), w.bytes(l)).ref && InstrOf(aas, i, l) == NO_MOD_REF
  {
    var zero: iset<Addr> := iset{0};
    l := At(0);
    w := World((l: Loc) => zero, (c: Call, k: nat) => NO_EFFECT, (c: Call) => NO_EFFECT, (c: Call) => NO_EFFECT,
               (j: Instr) => if j == i then Effect(iset{}, zero) else NO_EFFECT, iset{}, zero, iset{});
    var a := Analysis((l: Loc, m: Loc) => MayAlias, (l: Loc, b: bool) => true, (c: Call, k: nat) => MOD_REF,
                      (c: Call, l: Loc) => MOD_REF, (c: Call, d: Call) => MOD_REF, (c: Call) => UNKNOWN);
    aas := [a];
    forall d: Call ensures CallEffect(w, d) == NO_EFFECT {
      ArgsNoEffect(w, d, |d.args|);
    }
    forall d: Call ensures CallPlausible(w, d) {
    }
    forall j: Instr ensures InstrPlausible(w, j) {
    }
    forall l: Loc ensures Apart(w, l) {
    }
    forall d: Call, l: Loc ensures CallSound(w, a, d, l) {
    }
    forall d: Call, k: nat ensures ArgSound(w, a, d, k) {
    }
    forall d: Call, e: Call ensures CallsSound(w, a, d, e) {
    }
    forall d: Call ensures BehaviorSound(w, a, d) {
    }
    assert Sound(w, a) && AllSound(w, aas);
    assert aas[0].constant(l, false);
    assert 0 in zero * zero;
  }

  // ----- More analyses, better answers ----------------------------------------------------------------

  lemma {:induction false} AliasOfMore(aas: seq<Analysis>, a: Analysis, l: Loc, m: Loc)
    ensures AliasOf(aas, l, m).NoAlias? ==> AliasOf(aas + [a], l, m).NoAlias?
  {
    if aas != [] {
      AliasOfMore(aas[1..], a, l, m);
      assert (aas + [a])[1..] == aas[1..] + [a];
    }
  }

  lemma {:induction false} ArgMasksMore(aas: seq<Analysis>, a: Analysis, c: Call, l: Loc, n: nat)
    requires n <= |c.args|
    ensures Below(ArgMasks(aas + [a], c, l, n), ArgMasks(aas, c, l, n))
  {
    if n > 0 {
      ArgMasksMore(aas, a, c, l, n - 1);
      assert (aas + [a])[..|aas|] == aas;
      if c.args[n - 1].Some? {
        AliasOfMore(aas, a, c.args[n - 1].value, l);
      }
    }
  }

  lemma CombineMore(b: Behavior, b1: Behavior, m: ModRef, m1: ModRef, k: ModRef, k1: ModRef, t: bool, t1: bool)
    requires BelowBehavior(b1, b) && Below(m1, m) && Below(k1, k) && (t ==> t1)
    ensures Below(Combine(b1, m1, k1, t1), Combine(b, m, k, t)) <==> !(b.mod && !b.ref && !b1.mod && b1.other && m1.ref)
    ensures Below(Combine(b1, m1, k1, t1), m1)
  {
  }

  /** One analysis more makes the answer for a call and a location less precise in one case
      only: where the others say the call just writes, and the new one that it just reads. What
      is left, a call that accesses memory but neither way, is then taken to read. */
  lemma CallOfMore(aas: seq<Analysis>, a: Analysis, c: Call, l: Loc)
    ensures var b, b1 := BehaviorOf(aas, c), BehaviorOf(aas + [a], c);
      Below(CallOf(aas + [a], c, l), CallOf(aas, c, l))
      <==> !(b.mod && !b.ref && !b1.mod && b1.other && MeetOf(aas + [a], (x: Analysis) => x.call(c, l)).ref)
    ensures Below(CallOf(aas + [a], c, l), a.call(c, l))
  {
    var more := aas + [a];
    assert more[..|aas|] == aas;
    ArgMasksMore(aas, a, c, l, |c.args|);
    if ConstantOf(aas, l, false) {
      var k :| 0 <= k < |aas| && aas[k].constant(l, false);
      assert more[k].constant(l, false);
    }
    var call := (x: Analysis) => x.call(c, l);
    CombineMore(BehaviorOf(aas, c), BehaviorOf(more, c), MeetOf(aas, call), MeetOf(more, call),
                ArgMasks(aas, c, l, |c.args|), ArgMasks(more, c, l, |c.args|), ConstantOf(aas, l, false), ConstantOf(more, l, false));
  }

  /** Two analyses, both right about calls that do nothing: the first says that they only write,
      the second that they only read.  With the first alone the answer for any location is that
      it may be modified; with both it is that it may be read. */
  lemma MoreIsLessPrecise() returns (w: World, aas: seq<Analysis>, a: Analysis, c: Call, l: Loc)
    ensures Plausible(w) && AllSound(w, aas + [a])
    ensures CallOf(aas, c, l) == ModRef(true, false) && CallOf(aas + [a], c, l) == ModRef(false, true)
  {
    c, l := Call(0, []), At(0);
    w := World((l: Loc) => iset{}, (c: Call, k: nat) => NO_EFFECT, (c: Call) => NO_EFFECT, (c: Call) => NO_EFFECT,
               (j: Instr) => NO_EFFECT, iset{}, iset{}, iset{});
    var first := Knows(Behavior(true, true, true, true, false));
    a := Knows(Behavior(true, true, true, false, true));
    aas := [first];
    forall d: Call ensures CallEffect(w, d) == NO_EFFECT {
      ArgsNoEffect(w, d, |d.args|);
    }
    forall d: Call ensures CallPlausible(w, d) {
    }
    forall l: Loc ensures Apart(w, l) {
    }
    NothingIsSound(w, first);
    NothingIsSound(w, a);
    assert aas + [a] == [first, a];
    BothOf(first, a, c, l);
  }

  /** What one analysis says about a call, and what two of them say. */
  lemma BothOf(a: Analysis, b: Analysis, c: Call, l: Loc)
    ensures BehaviorOf([a], c) == MeetBehavior(UNKNOWN, a.behavior(c))
    ensures BehaviorOf([a, b], c) == MeetBehavior(MeetBehavior(UNKNOWN, a.behavior(c)), b.behavior(c))
    ensures var call := (x: Analysis) => x.call(c, l);
      && MeetOf([a], call) == Meet(MOD_REF, a.call(c, l))
      && MeetOf([a, b], call) == Meet(Meet(MOD_REF, a.call(c, l)), b.call(c, l))
  {
    assert [a, b][..1] == [a] && [a][..0] == [];
  }

  /** An analysis that knows how calls behave, and nothing else. */
  function Knows(b: Behavior): Analysis {
    Analysis((l: Loc, m: Loc) => MayAlias, (l: Loc, b: bool) => false, (c: Call, k: nat) => MOD_REF,
             (c: Call, l: Loc) => MOD_REF, (c: Call, d: Call) => MOD_REF, (c: Call) => b)
  }

  lemma NothingIsSound(w: World, a: Analysis)
    requires a == Knows(a.behavior(Call(0, []))) && forall d: Call :: CallEffect(w, d) == NO_EFFECT && Behaves(w, d) == DOES_NOT_ACCESS_MEMORY
    ensures Sound(w, a)
  {
    forall d: Call ensures BehaviorSound(w, a, d) {
    }
  }
}
