/** The combined answers are not larger than they have to be: which reasons, and no others,
    clear a bit. */
module AliasExact {
  import opened Wrappers
  import opened AliasModel

  // ----- One kind of answer from all analyses ---------------------------------------------------------

  predicate Decides(aas: seq<Analysis>, a: Loc, b: Loc, k: nat)
    requires k < |aas|
  {
    aas[k].alias(a, b) != MayAlias && forall j :: 0 <= j < k ==> aas[j].alias(a, b) == MayAlias
  }

  /** The first analysis that does not say MayAlias decides. */
  lemma {:induction false} AliasOfExact(aas: seq<Analysis>, a: Loc, b: Loc)
    ensures AliasOf(aas, a, b) == MayAlias <==> forall k :: 0 <= k < |aas| ==> aas[k].alias(a, b) == MayAlias
    ensures forall k :: 0 <= k < |aas| && Decides(aas, a, b, k) ==> AliasOf(aas, a, b) == aas[k].alias(a, b)
  {
    if aas != [] {
      var rest := aas[1..];
      AliasOfExact(rest, a, b);
      assert forall k :: 0 <= k < |rest| ==> rest[k] == aas[k + 1];
      forall k | 0 <= k < |aas| && Decides(aas, a, b, k)
        ensures AliasOf(aas, a, b) == aas[k].alias(a, b)
      {
        if k > 0 {
          assert aas[0].alias(a, b) == MayAlias;
          assert rest[k - 1] == aas[k] && Decides(rest, a, b, k - 1);
        }
      }
      if AliasOf(aas, a, b) == MayAlias {
        forall k | 0 <= k < |aas| ensures aas[k].alias(a, b) == MayAlias {
          assert k > 0 ==> rest[k - 1] == aas[k];
        }
      }
    }
  }

  /** A bit is set exactly if every analysis sets it. */
  lemma {:induction false} MeetOfExact(aas: seq<Analysis>, answer: Analysis -> ModRef)
    ensures MeetOf(aas, answer).mod <==> forall k :: 0 <= k < |aas| ==> answer(aas[k]).mod
    ensures MeetOf(aas, answer).ref <==> forall k :: 0 <= k < |aas| ==> answer(aas[k]).ref
  {
    if aas != [] {
      var last := |aas| - 1;
      MeetOfExact(aas[..last], answer);
      assert forall k :: 0 <= k < last ==> aas[..last][k] == aas[k];
    }
  }

  /** So it is for an argument of a call. */
  lemma ArgOfExact(aas: seq<Analysis>, c: Call, i: nat)
    ensures ArgOf(aas, c, i).mod <==> forall k :: 0 <= k < |aas| ==> aas[k].arg(c, i).mod
    ensures ArgOf(aas, c, i).ref <==> forall k :: 0 <= k < |aas| ==> aas[k].arg(c, i).ref
  {
    var answer := (a: Analysis) => a.arg(c, i);
    MeetOfExact(aas, answer);
    assert forall k :: 0 <= k < |aas| ==> answer(aas[k]) == aas[k].arg(c, i);
  }

  /** And for what a call does and where. */
  lemma {:induction false} BehaviorOfExact(aas: seq<Analysis>, c: Call)
    ensures var b := BehaviorOf(aas, c);
      && (b.args <==> forall k :: 0 <= k < |aas| ==> aas[k].behavior(c).args)
      && (b.hidden <==> forall k :: 0 <= k < |aas| ==> aas[k].behavior(c).hidden)
      && (b.other <==> forall k :: 0 <= k < |aas| ==> aas[k].behavior(c).other)
      && (b.mod <==> forall k :: 0 <= k < |aas| ==> aas[k].behavior(c).mod)
      && (b.ref <==> forall k :: 0 <= k < |aas| ==> aas[k].behavior(c).ref)
  {
    if aas != [] {
      var last := |aas| - 1;
      BehaviorOfExact(aas[..last], c);
      assert forall k :: 0 <= k < last ==> aas[..last][k] == aas[k];
    }
  }

  // ----- Accesses that the answers allow -----------------------------------------------------------------

  /** What an argument may do to its own location, going by an answer. */
  ghost predicate Inside(e: Effect, region: iset<Addr>, answer: ModRef) {
    Within(e, region) && Below(Need(e, EVERYWHERE), answer)
  }

  /** Two locations that the answer of an alias query allows. */
  ghost predicate Placed(r: AliasResult, one: iset<Addr>, other: iset<Addr>) {
    r.NoAlias? ==> one * other == iset{}
  }

  ghost const ZERO: iset<Addr> := iset{0}

  /** One access to the byte 0. */
  ghost function Zero(mod: bool): Effect {
    if mod then Effect(ZERO, iset{}) else Effect(iset{}, ZERO)
  }

  lemma ZeroAccess(mod: bool)
    ensures Within(Zero(mod), ZERO) && Need(Zero(mod), EVERYWHERE) == Need(Zero(mod), ZERO) == ModRef(mod, !mod)
  {
    assert 0 in ZERO * EVERYWHERE && 0 in ZERO * ZERO;
    assert forall s: iset<Addr> :: iset{} * s == iset{};
  }

  /** An access through an argument to a location that the answers allow. */
  ghost predicate Accesses(r: AliasResult, answer: ModRef, one: iset<Addr>, location: iset<Addr>, e: Effect) {
    Placed(r, one, location) && Inside(e, one, answer)
  }

  ghost predicate Bit(m: ModRef, mod: bool) {
    if mod then m.mod else m.ref
  }

  ghost predicate CanAccess(r: AliasResult, answer: ModRef, mod: bool) {
    exists one, location, e :: Accesses(r, answer, one, location, e) && Bit(Need(e, location), mod)
  }

  /** A bit for a location is set through an argument exactly if the answers allow such an access. */
  lemma ArgMaskExact(aas: seq<Analysis>, c: Call, l: Loc, i: nat, mod: bool)
    requires i < |c.args|
    ensures Bit(ArgMask(aas, c, l, i), mod)
      <==> c.args[i].Some? && CanAccess(AliasOf(aas, c.args[i].value, l), ArgOf(aas, c, i), mod)
  {
    if c.args[i].Some? {
      AccessPossible(AliasOf(aas, c.args[i].value, l), ArgOf(aas, c, i), mod);
    }
  }

  lemma AccessPossible(r: AliasResult, answer: ModRef, mod: bool)
    ensures CanAccess(r, answer, mod) <==> !r.NoAlias? && Bit(answer, mod)
  {
    forall one, location, e | Accesses(r, answer, one, location, e) && Bit(Need(e, location), mod) ensures !r.NoAlias? && Bit(answer, mod) {
      NeedLess(e, location);
      if r.NoAlias? {
        NeedDisjoint(e, one, location);
      }
    }
    ZeroAccess(mod);
    if !r.NoAlias? && Bit(answer, mod) {
      assert Accesses(r, answer, ZERO, ZERO, Zero(mod));
    }
  }

  lemma {:induction false} ArgMasksExact(aas: seq<Analysis>, c: Call, l: Loc, n: nat)
    requires n <= |c.args|
    ensures ArgMasks(aas, c, l, n).mod <==> exists i :: 0 <= i < n && ArgMask(aas, c, l, i).mod
    ensures ArgMasks(aas, c, l, n).ref <==> exists i :: 0 <= i < n && ArgMask(aas, c, l, i).ref
  {
    if n > 0 {
      ArgMasksExact(aas, c, l, n - 1);
    }
  }

  // ----- A call and a location -----------------------------------------------------------------------------

  /** What the behaviour of a call leaves possible for a location: the call accesses memory that
      locations are about, and where it is confined to its arguments it does access them. */
  predicate Reaches(b: Behavior) {
    && b != DOES_NOT_ACCESS_MEMORY && b != ONLY_ACCESSES_INACCESSIBLE_MEM
    && (!b.other ==> b.args && (b.mod || b.ref))
  }

  /** Which bits the behaviour leaves: a call that only reads does not modify, and one that
      modifies without reading does not read. */
  predicate Leaves(b: Behavior, mod: bool) {
    if mod then b.mod else b.ref || !b.mod
  }

  /** A bit is set exactly if every analysis sets it for the call and the location, the behaviour
      leaves it, an argument can make the access where nothing else can, and for modifications
      the location is not constant. */
  lemma CallOfExact(aas: seq<Analysis>, c: Call, l: Loc)
    ensures var b := BehaviorOf(aas, c);
      CallOf(aas, c, l).mod <==> (
        && (forall k :: 0 <= k < |aas| ==> aas[k].call(c, l).mod) && Reaches(b) && Leaves(b, true)
        && (!b.other ==> exists i :: 0 <= i < |c.args| && ArgMask(aas, c, l, i).mod)
        && !(exists k :: 0 <= k < |aas| && aas[k].constant(l, false)))
    ensures var b := BehaviorOf(aas, c);
      CallOf(aas, c, l).ref <==> (
        && (forall k :: 0 <= k < |aas| ==> aas[k].call(c, l).ref) && Reaches(b) && Leaves(b, false)
        && (!b.other ==> exists i :: 0 <= i < |c.args| && ArgMask(aas, c, l, i).ref))
  {
    var answer := (a: Analysis) => a.call(c, l);
    MeetOfExact(aas, answer);
    assert forall k :: 0 <= k < |aas| ==> answer(aas[k]) == aas[k].call(c, l);
    ArgMasksExact(aas, c, l, |c.args|);
    CombineExact(BehaviorOf(aas, c), MeetOf(aas, answer), ArgMasks(aas, c, l, |c.args|), ConstantOf(aas, l, false));
  }

  lemma CombineExact(b: Behavior, m: ModRef, k: ModRef, constant: bool)
    ensures Combine(b, m, k, constant).mod <==> m.mod && Reaches(b) && Leaves(b, true) && (!b.other ==> k.mod) && !constant
    ensures Combine(b, m, k, constant).ref <==> m.ref && Reaches(b) && Leaves(b, false) && (!b.other ==> k.ref)
  {
  }

  // ----- Two calls --------------------------------------------------------------------------------------------

  /** The first effect is made through an argument with a location, the second is anything the
      answer for that location allows. */
  ghost predicate FirstThrough(arg: ModRef, other: ModRef, region: iset<Addr>, e1: Effect, e2: Effect) {
    region != iset{} && Inside(e1, region, arg) && Below(Need(e2, region), other)
  }

  ghost predicate FirstCanDepend(arg: ModRef, other: ModRef) {
    exists region, e1, e2 :: FirstThrough(arg, other, region, e1, e2) && Depends(e1, e2) != NO_MOD_REF
  }

  /** An argument of the first call counts, with all that it may do, exactly if what it may do at
      its location can depend on what the second call may do there. */
  lemma FirstMaskExact(aas: seq<Analysis>, c1: Call, c2: Call, i: nat)
    requires i < |c1.args|
    ensures FirstMask(aas, c1, c2, i)
      == if c1.args[i].Some? && FirstCanDepend(ArgOf(aas, c1, i), CallOf(aas, c2, c1.args[i].value)) then ArgOf(aas, c1, i)
         else NO_MOD_REF
  {
    if c1.args[i].Some? {
      FirstPossible(ArgOf(aas, c1, i), CallOf(aas, c2, c1.args[i].value));
    }
  }

  lemma FirstPossible(arg: ModRef, other: ModRef)
    ensures FirstCanDepend(arg, other) <==> (arg.mod && other != NO_MOD_REF) || (arg.ref && other.mod)
  {
    forall region, e1, e2 | FirstThrough(arg, other, region, e1, e2) && Depends(e1, e2) != NO_MOD_REF
      ensures (arg.mod && other != NO_MOD_REF) || (arg.ref && other.mod)
    {
      DependsOwn(e1, e2, region);
    }
    if (arg.mod && other != NO_MOD_REF) || (arg.ref && other.mod) {
      ZeroAccess(arg.mod);
      ZeroAccess(other.mod);
      ZeroDepends(arg.mod, other.mod);
      assert 0 in ZERO;
      assert FirstThrough(arg, other, ZERO, Zero(arg.mod), Zero(other.mod));
    }
  }

  lemma ZeroDepends(first: bool, second: bool)
    ensures Depends(Zero(first), Zero(second)) == ModRef(first, !first && second)
  {
    var e1, e2 := Zero(first), Zero(second);
    assert forall s: iset<Addr> :: iset{} * s == iset{} && s * iset{} == iset{};
    assert 0 in e2.mods + e2.refs;
    if first {
      assert 0 in e1.mods * (e2.mods + e2.refs);
    } else if second {
      assert 0 in e1.refs * e2.mods;
    }
  }

  /** The second effect is made through an argument with a location, the first is anything the
      answer for that location allows. */
  ghost predicate SecondThrough(arg: ModRef, other: ModRef, region: iset<Addr>, e1: Effect, e2: Effect) {
    region != iset{} && Inside(e2, region, arg) && Below(Need(e1, region), other)
  }

  ghost predicate SecondCanDepend(arg: ModRef, other: ModRef, mod: bool) {
    exists region, e1, e2 :: SecondThrough(arg, other, region, e1, e2) && Bit(Depends(e1, e2), mod)
  }

  /** An argument of the second call sets a bit exactly if what the first call may do at its
      location can depend, in that way, on what the argument may do there. */
  lemma SecondMaskExact(aas: seq<Analysis>, c1: Call, c2: Call, i: nat, mod: bool)
    requires i < |c2.args|
    ensures Bit(SecondMask(aas, c1, c2, i), mod)
      <==> c2.args[i].Some? && SecondCanDepend(ArgOf(aas, c2, i), CallOf(aas, c1, c2.args[i].value), mod)
  {
    if c2.args[i].Some? {
      SecondPossible(ArgOf(aas, c2, i), CallOf(aas, c1, c2.args[i].value), mod);
    }
  }

  lemma SecondPossible(arg: ModRef, other: ModRef, mod: bool)
    ensures SecondCanDepend(arg, other, mod) <==> if mod then arg != NO_MOD_REF && other.mod else arg.mod && other.ref
  {
    forall region, e1, e2 | SecondThrough(arg, other, region, e1, e2) && Bit(Depends(e1, e2), mod)
      ensures if mod then arg != NO_MOD_REF && other.mod else arg.mod && other.ref
    {
      DependsNeed(e1, e2, region);
    }
    if if mod then arg != NO_MOD_REF && other.mod else arg.mod && other.ref {
      ZeroAccess(mod);
      ZeroAccess(arg.mod);
      ZeroDepends(mod, arg.mod);
      assert 0 in ZERO;
      assert SecondThrough(arg, other, ZERO, Zero(mod), Zero(arg.mod));
    }
  }

  lemma {:induction false} FirstMasksExact(aas: seq<Analysis>, c1: Call, c2: Call, n: nat)
    requires n <= |c1.args|
    ensures FirstMasks(aas, c1, c2, n).mod <==> exists i :: 0 <= i < n && FirstMask(aas, c1, c2, i).mod
    ensures FirstMasks(aas, c1, c2, n).ref <==> exists i :: 0 <= i < n && FirstMask(aas, c1, c2, i).ref
  {
    if n > 0 {
      FirstMasksExact(aas, c1, c2, n - 1);
    }
  }

  lemma {:induction false} SecondMasksExact(aas: seq<Analysis>, c1: Call, c2: Call, n: nat)
    requires n <= |c2.args|
    ensures SecondMasks(aas, c1, c2, n).mod <==> exists i :: 0 <= i < n && SecondMask(aas, c1, c2, i).mod
    ensures SecondMasks(aas, c1, c2, n).ref <==> exists i :: 0 <= i < n && SecondMask(aas, c1, c2, i).ref
  {
    if n > 0 {
      SecondMasksExact(aas, c1, c2, n - 1);
    }
  }

  /** Both calls access memory, and not both only read it. */
  predicate Interact(b1: Behavior, b2: Behavior) {
    b1 != DOES_NOT_ACCESS_MEMORY && b2 != DOES_NOT_ACCESS_MEMORY && (b1.mod || b2.mod)
  }

  /** A call that is confined to its arguments, and accesses them. */
  predicate ThroughArgs(b: Behavior) {
    !b.hidden && !b.other && b.args && (b.mod || b.ref)
  }

  predicate Confined(b: Behavior) {
    !b.hidden && !b.other
  }

  /** A bit is set exactly if every analysis sets it for the two calls, the calls interact, the
      behaviour of the first leaves it, and, where one of them is confined to its arguments (the
      second, if both are), one of these arguments sets it. */
  lemma CallsOfExact(aas: seq<Analysis>, c1: Call, c2: Call)
    ensures var b1, b2 := BehaviorOf(aas, c1), BehaviorOf(aas, c2);
      CallsOf(aas, c1, c2).mod <==> (
        && (forall k :: 0 <= k < |aas| ==> aas[k].calls(c1, c2).mod) && Interact(b1, b2) && Leaves(b1, true)
        && (Confined(b2) ==> ThroughArgs(b2) && exists i :: 0 <= i < |c2.args| && SecondMask(aas, c1, c2, i).mod)
        && (!Confined(b2) && Confined(b1) ==> ThroughArgs(b1) && exists i :: 0 <= i < |c1.args| && FirstMask(aas, c1, c2, i).mod))
    ensures var b1, b2 := BehaviorOf(aas, c1), BehaviorOf(aas, c2);
      CallsOf(aas, c1, c2).ref <==> (
        && (forall k :: 0 <= k < |aas| ==> aas[k].calls(c1, c2).ref) && Interact(b1, b2) && Leaves(b1, false)
        && (Confined(b2) ==> ThroughArgs(b2) && exists i :: 0 <= i < |c2.args| && SecondMask(aas, c1, c2, i).ref)
        && (!Confined(b2) && Confined(b1) ==> ThroughArgs(b1) && exists i :: 0 <= i < |c1.args| && FirstMask(aas, c1, c2, i).ref))
  {
    var answer := (a: Analysis) => a.calls(c1, c2);
    var m := MeetOf(aas, answer);
    MeetOfExact(aas, answer);
    assert forall k :: 0 <= k < |aas| ==> answer(aas[k]) == aas[k].calls(c1, c2);
    FirstMasksExact(aas, c1, c2, |c1.args|);
    SecondMasksExact(aas, c1, c2, |c2.args|);
    MasksAnswer(BehaviorOf(aas, c1), BehaviorOf(aas, c2), m, FirstMasks(aas, c1, c2, |c1.args|), SecondMasks(aas, c1, c2, |c2.args|));
    CallsFromMasks(aas, c1, c2);
  }

  /** What the two behaviours make of the answers m of the analyses and of the masks. */
  function Masked(b1: Behavior, b2: Behavior, m: ModRef, first: ModRef, second: ModRef): ModRef {
    var r := Restrict(m, b1);
    if !Interact(b1, b2) then NO_MOD_REF
    else if Confined(b2) then if ThroughArgs(b2) then Meet(second, r) else NO_MOD_REF
    else if Confined(b1) then if ThroughArgs(b1) then Meet(first, r) else NO_MOD_REF
    else r
  }

  lemma CallsFromMasks(aas: seq<Analysis>, c1: Call, c2: Call)
    ensures CallsOf(aas, c1, c2) == Masked(BehaviorOf(aas, c1), BehaviorOf(aas, c2), MeetOf(aas, (a: Analysis) => a.calls(c1, c2)),
                                           FirstMasks(aas, c1, c2, |c1.args|), SecondMasks(aas, c1, c2, |c2.args|))
  {
  }

  lemma MasksAnswer(b1: Behavior, b2: Behavior, m: ModRef, first: ModRef, second: ModRef)
    ensures Masked(b1, b2, m, first, second).mod <==> (
      m.mod && Interact(b1, b2) && Leaves(b1, true) && (Confined(b2) ==> ThroughArgs(b2) && second.mod)
      && (!Confined(b2) && Confined(b1) ==> ThroughArgs(b1) && first.mod))
    ensures Masked(b1, b2, m, first, second).ref <==> (
      m.ref && Interact(b1, b2) && Leaves(b1, false) && (Confined(b2) ==> ThroughArgs(b2) && second.ref)
      && (!Confined(b2) && Confined(b1) ==> ThroughArgs(b1) && first.ref))
  {
  }

  // ----- Single instructions ----------------------------------------------------------------------------------

  /** An access of an instruction to its own location that the answers allow. */
  ghost predicate OwnAccess(r: AliasResult, own: iset<Addr>, location: iset<Addr>, constant: iset<Addr>, isConstant: bool, e: Effect) {
    Placed(r, own, location) && Within(e, own) && (isConstant ==> location <= constant) && e.mods * constant == iset{}
  }

  /** What an instruction with a location may do, by its kind. */
  ghost predicate OfKind(i: Instr, e: Effect) {
    match i
    case Load(_, _, _) => e.mods == iset{}
    case Store(_, _, _) => e.refs == iset{}
    case _ => true
  }

  ghost predicate CanAccessOwn(i: Instr, r: AliasResult, isConstant: bool, mod: bool) {
    exists own, location, constant, e ::
      OwnAccess(r, own, location, constant, isConstant, e) && OfKind(i, e) && Bit(Need(e, location), mod)
  }

  /** A load or a store that orders nothing gets a bit for a location exactly if the answers allow
      an access of its kind that makes it. */
  lemma LoadStoreExact(aas: seq<Analysis>, i: Instr, l: Loc, mod: bool)
    requires (i.Load? || i.Store?) && !Orders(i) && l.At?
    ensures Bit(InstrOf(aas, i, l), mod) <==> CanAccessOwn(i, AliasOf(aas, i.loc, l), ConstantOf(aas, l, false), mod)
  {
    OwnPossible(i, AliasOf(aas, i.loc, l), ConstantOf(aas, l, false), mod);
  }

  lemma OwnPossible(i: Instr, r: AliasResult, isConstant: bool, mod: bool)
    requires i.Load? || i.Store?
    ensures CanAccessOwn(i, r, isConstant, mod) <==> !r.NoAlias? && if mod then i.Store? && !isConstant else i.Load?
  {
    forall own, location, constant, e
      | OwnAccess(r, own, location, constant, isConstant, e) && OfKind(i, e) && Bit(Need(e, location), mod)
      ensures !r.NoAlias? && if mod then i.Store? && !isConstant else i.Load?
    {
      OwnOnly(i, r, isConstant, own, location, constant, e);
    }
    if !r.NoAlias? && if mod then i.Store? && !isConstant else i.Load? {
      ZeroAccess(mod);
      var constant: iset<Addr> := if isConstant then ZERO else iset{};
      assert Zero(mod).mods * iset{} == iset{} && iset{} * constant == iset{};
      assert OwnAccess(r, ZERO, ZERO, constant, isConstant, Zero(mod)) && OfKind(i, Zero(mod));
    }
  }

  lemma OwnOnly(i: Instr, r: AliasResult, isConstant: bool, own: iset<Addr>, location: iset<Addr>, constant: iset<Addr>, e: Effect)
    requires (i.Load? || i.Store?) && OwnAccess(r, own, location, constant, isConstant, e) && OfKind(i, e)
    ensures Need(e, location).mod ==> i.Store? && !r.NoAlias? && !isConstant
    ensures Need(e, location).ref ==> i.Load? && !r.NoAlias?
  {
    assert forall s: iset<Addr> :: iset{} * s == iset{};
    if r.NoAlias? {
      NeedDisjoint(e, own, location);
    }
    if isConstant {
      assert forall a :: a in e.mods * location ==> a in e.mods * constant;
    }
  }

  predicate HasLocation(i: Instr) {
    i.Load? || i.Store? || i.VAArg? || i.CmpXchg? || i.Rmw?
  }

  /** An instruction is answered not to touch a location for one of these reasons, and no other: it
      accesses no memory; it orders nothing and its own location is another one; the location is
      constant and the instruction only writes, or is assumed to spare constants; or it is a call
      that is answered so. */
  lemma InstrOfNone(aas: seq<Analysis>, i: Instr, l: Loc)
    ensures InstrOf(aas, i, l) == NO_MOD_REF <==> (
      || i.Other?
      || (l.At? && HasLocation(i) && !Orders(i) && AliasOf(aas, i.loc, l) == NoAlias)
      || (l.At? && ConstantOf(aas, l, false) && ((i.Store? && !Orders(i)) || SparesConstants(i)))
      || (i.Calling? && CallOf(aas, i.call, l) == NO_MOD_REF))
  {
  }

  /** Of the others, it is answered only to read if it is a load that orders nothing, or a fence and
      the location is constant; and only to modify if it is a store that orders nothing. */
  lemma InstrOfOne(aas: seq<Analysis>, i: Instr, l: Loc)
    requires !i.Calling? && InstrOf(aas, i, l) != NO_MOD_REF
    ensures InstrOf(aas, i, l) == ModRef(false, true) <==> (i.Load? && !Orders(i)) || (i.Fence? && l.At? && ConstantOf(aas, l, false))
    ensures InstrOf(aas, i, l) == ModRef(true, false) <==> i.Store? && !Orders(i)
  {
  }

  /** Which orderings order accesses to other locations: from monotonic on for a load or a store, and
      those beyond monotonic for the read-modify-write instructions. */
  lemma OrdersExact(i: Instr)
    ensures Orders(i) <==>
      || ((i.Load? || i.Store?) && i.ordering in {Monotonic, Acquire, Release, AcquireRelease, SequentiallyConsistent})
      || ((i.CmpXchg? || i.Rmw?) && i.ordering in {Acquire, Release, AcquireRelease, SequentiallyConsistent})
  {
  }

  /** Without a location, a bit for a call is set exactly if every analysis sets it in the call's
      behaviour, and everything else is answered as for any memory. */
  lemma OptionalOfExact(aas: seq<Analysis>, i: Instr)
    ensures i.Calling? ==> (OptionalOf(aas, i, None).mod <==> forall k :: 0 <= k < |aas| ==> aas[k].behavior(i.call).mod)
    ensures i.Calling? ==> (OptionalOf(aas, i, None).ref <==> forall k :: 0 <= k < |aas| ==> aas[k].behavior(i.call).ref)
    ensures !i.Calling? ==> OptionalOf(aas, i, None) == match i
      case Other(_) => NO_MOD_REF
      case Load(_, _, _) => if Orders(i) then MOD_REF else ModRef(false, true)
      case Store(_, _, _) => if Orders(i) then MOD_REF else ModRef(true, false)
      case _ => MOD_REF
  {
    if i.Calling? {
      BehaviorOfExact(aas, i.call);
    }
  }
}
