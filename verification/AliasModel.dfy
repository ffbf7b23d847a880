/** Mod/ref answers, the memory effects they are about, and what makes an analysis, and the
    combination of any number of analyses, sound. */
module AliasModel {
  import opened Wrappers

  datatype AliasResult = NoAlias | MayAlias | PartialAlias | MustAlias

  /** Mod and Ref bits; a smaller answer is more precise. */
  datatype ModRef = ModRef(mod: bool, ref: bool)

  const NO_MOD_REF := ModRef(false, false)
  const MOD_REF := ModRef(true, true)

  function Meet(a: ModRef, b: ModRef): ModRef {
    ModRef(a.mod && b.mod, a.ref && b.ref)
  }

  function Join(a: ModRef, b: ModRef): ModRef {
    ModRef(a.mod || b.mod, a.ref || b.ref)
  }

  predicate Below(a: ModRef, b: ModRef) {
    (a.mod ==> b.mod) && (a.ref ==> b.ref)
  }

  /** FunctionModRefBehavior: where a call may access memory, and how. */
  datatype Behavior = Behavior(args: bool, hidden: bool, other: bool, mod: bool, ref: bool)

  const UNKNOWN := Behavior(true, true, true, true, true)
  const DOES_NOT_ACCESS_MEMORY := Behavior(false, false, false, false, false)
  const ONLY_ACCESSES_INACCESSIBLE_MEM := Behavior(false, true, false, true, true)

  function MeetBehavior(a: Behavior, b: Behavior): Behavior {
    Behavior(a.args && b.args, a.hidden && b.hidden, a.other && b.other, a.mod && b.mod, a.ref && b.ref)
  }

  predicate BelowBehavior(a: Behavior, b: Behavior) {
    MeetBehavior(a, b) == a
  }

  predicate OnlyArgPointees(b: Behavior) { !b.hidden && !b.other }

  predicate OnlyInaccessibleOrArg(b: Behavior) { !b.other }

  predicate AccessesArgPointees(b: Behavior) { (b.mod || b.ref) && b.args }

  type Addr = nat

  /** A memory location; without a pointer it stands for any memory. */
  datatype Loc = Anywhere | At(id: nat)

  /** A call, with the location of every pointer argument. */
  datatype Call = Call(id: nat, args: seq<Option<Loc>>)

  datatype Ordering = NotAtomic | Unordered | Monotonic | Acquire | Release | AcquireRelease | SequentiallyConsistent

  /** isStrongerThan(o, Unordered). */
  predicate StrongerThanUnordered(o: Ordering) { !o.NotAtomic? && !o.Unordered? }

  predicate StrongerThanMonotonic(o: Ordering) { StrongerThanUnordered(o) && !o.Monotonic? }

  datatype Instr =
    | Load(id: nat, loc: Loc, ordering: Ordering)
    | Store(id: nat, loc: Loc, ordering: Ordering)
    | VAArg(id: nat, loc: Loc)
    | CmpXchg(id: nat, loc: Loc, ordering: Ordering)
    | Rmw(id: nat, loc: Loc, ordering: Ordering)
    | Fence(id: nat)
    | CatchPad(id: nat)
    | CatchRet(id: nat)
    | Calling(call: Call)
    | Other(id: nat)

  /** One registered analysis: its answers to every kind of query. */
  datatype Analysis = Analysis(
    alias: (Loc, Loc) -> AliasResult,
    constant: (Loc, bool) -> bool,
    arg: (Call, nat) -> ModRef,
    call: (Call, Loc) -> ModRef,
    calls: (Call, Call) -> ModRef,
    behavior: Call -> Behavior)

  // ----- The combined answers -----------------------------------------------------------------

  /** The first analysis that knows anything decides. */
  function AliasOf(aas: seq<Analysis>, a: Loc, b: Loc): AliasResult {
    if aas == [] then MayAlias
    else
      var r := aas[0].alias(a, b);
      if r != MayAlias then r else AliasOf(aas[1..], a, b)
  }

  predicate ConstantOf(aas: seq<Analysis>, l: Loc, orLocal: bool) {
    exists k :: 0 <= k < |aas| && aas[k].constant(l, orLocal)
  }

  function MeetOf(aas: seq<Analysis>, answer: Analysis -> ModRef): ModRef {
    if aas == [] then MOD_REF else Meet(MeetOf(aas[..|aas| - 1], answer), answer(aas[|aas| - 1]))
  }

  function ArgOf(aas: seq<Analysis>, c: Call, i: nat): ModRef {
    MeetOf(aas, (a: Analysis) => a.arg(c, i))
  }

  function BehaviorOf(aas: seq<Analysis>, c: Call): Behavior {
    if aas == [] then UNKNOWN else MeetBehavior(BehaviorOf(aas[..|aas| - 1], c), aas[|aas| - 1].behavior(c))
  }

  /** What the i-th argument lets the call do to a location. */
  function ArgMask(aas: seq<Analysis>, c: Call, l: Loc, i: nat): ModRef
    requires i < |c.args|
  {
    match c.args[i]
    case None => NO_MOD_REF
    case Some(argLoc) => if AliasOf(aas, argLoc, l).NoAlias? then NO_MOD_REF else ArgOf(aas, c, i)
  }

  function ArgMasks(aas: seq<Analysis>, c: Call, l: Loc, n: nat): ModRef
    requires n <= |c.args|
  {
    if n == 0 then NO_MOD_REF else Join(ArgMasks(aas, c, l, n - 1), ArgMask(aas, c, l, n - 1))
  }

  function Restrict(r: ModRef, b: Behavior): ModRef {
    if !b.mod then r.(mod := false) else if !b.ref then r.(ref := false) else r
  }

  /** The answer for a call and a location, from what the analyses say about the call's behaviour b,
      about the call itself m, its arguments k, and whether the location is constant. */
  function Combine(b: Behavior, m: ModRef, k: ModRef, constant: bool): ModRef {
    if b == DOES_NOT_ACCESS_MEMORY || b == ONLY_ACCESSES_INACCESSIBLE_MEM then NO_MOD_REF
    else
      var r := Restrict(m, b);
      var masked := if !OnlyInaccessibleOrArg(b) then r else if AccessesArgPointees(b) then Meet(r, k) else NO_MOD_REF;
      if constant then masked.(mod := false) else masked
  }

  /** The answer for a call and a location. */
  function CallOf(aas: seq<Analysis>, c: Call, l: Loc): ModRef {
    Combine(BehaviorOf(aas, c), MeetOf(aas, (a: Analysis) => a.call(c, l)), ArgMasks(aas, c, l, |c.args|), ConstantOf(aas, l, false))
  }

  /** The dependence of c1 on c2 through the i-th argument of c2. */
  function SecondMask(aas: seq<Analysis>, c1: Call, c2: Call, i: nat): ModRef
    requires i < |c2.args|
  {
    match c2.args[i]
    case None => NO_MOD_REF
    case Some(argLoc) =>
      var arg := ArgOf(aas, c2, i);
      Meet(if arg.mod then MOD_REF else if arg.ref then ModRef(true, false) else NO_MOD_REF, CallOf(aas, c1, argLoc))
  }

  function SecondMasks(aas: seq<Analysis>, c1: Call, c2: Call, n: nat): ModRef
    requires n <= |c2.args|
  {
    if n == 0 then NO_MOD_REF else Join(SecondMasks(aas, c1, c2, n - 1), SecondMask(aas, c1, c2, n - 1))
  }

  /** The dependence of c1 on c2 through the i-th argument of c1. */
  function FirstMask(aas: seq<Analysis>, c1: Call, c2: Call, i: nat): ModRef
    requires i < |c1.args|
  {
    match c1.args[i]
    case None => NO_MOD_REF
    case Some(argLoc) =>
      var arg := ArgOf(aas, c1, i);
      var other := CallOf(aas, c2, argLoc);
      if (arg.mod && other != NO_MOD_REF) || (arg.ref && other.mod) then arg else NO_MOD_REF
  }

  function FirstMasks(aas: seq<Analysis>, c1: Call, c2: Call, n: nat): ModRef
    requires n <= |c1.args|
  {
    if n == 0 then NO_MOD_REF else Join(FirstMasks(aas, c1, c2, n - 1), FirstMask(aas, c1, c2, n - 1))
  }

  /** The answer for two calls. */
  function CallsOf(aas: seq<Analysis>, c1: Call, c2: Call): ModRef {
    var b1, b2 := BehaviorOf(aas, c1), BehaviorOf(aas, c2);
    if b1 == DOES_NOT_ACCESS_MEMORY || b2 == DOES_NOT_ACCESS_MEMORY || (!b1.mod && !b2.mod) then NO_MOD_REF
    else
      var r := Restrict(MeetOf(aas, (a: Analysis) => a.calls(c1, c2)), b1);
      if OnlyArgPointees(b2) then
        if AccessesArgPointees(b2) then Meet(SecondMasks(aas, c1, c2, |c2.args|), r) else NO_MOD_REF
      else if OnlyArgPointees(b1) then
        if AccessesArgPointees(b1) then Meet(FirstMasks(aas, c1, c2, |c1.args|), r) else NO_MOD_REF
      else r
  }

  /** The instructions that are taken not to touch a location that is constant. */
  predicate SparesConstants(i: Instr) {
    i.VAArg? || i.CatchPad? || i.CatchRet?
  }

  /** Whether an instruction is taken not to touch a location because the location is constant. */
  predicate AssumedUntouched(aas: seq<Analysis>, i: Instr, l: Loc) {
    SparesConstants(i) && l.At? && ConstantOf(aas, l, false)
  }

  /** The answer for an instruction and a location. */
  function InstrOf(aas: seq<Analysis>, i: Instr, l: Loc): ModRef {
    match i
    case Load(_, loc, o) =>
      if StrongerThanUnordered(o) then MOD_REF
      else if l.At? && AliasOf(aas, loc, l).NoAlias? then NO_MOD_REF
      else ModRef(false, true)
    case Store(_, loc, o) =>
      if StrongerThanUnordered(o) then MOD_REF
      else if l.At? && (AliasOf(aas, loc, l).NoAlias? || ConstantOf(aas, l, false)) then NO_MOD_REF
      else ModRef(true, false)
    case VAArg(_, loc) =>
      if l.At? && (AliasOf(aas, loc, l).NoAlias? || ConstantOf(aas, l, false)) then NO_MOD_REF else MOD_REF
    case CmpXchg(_, loc, o) =>
      if !StrongerThanMonotonic(o) && l.At? && AliasOf(aas, loc, l).NoAlias? then NO_MOD_REF else MOD_REF
    case Rmw(_, loc, o) =>
      if !StrongerThanMonotonic(o) && l.At? && AliasOf(aas, loc, l).NoAlias? then NO_MOD_REF else MOD_REF
    case Fence(_) => if l.At? && ConstantOf(aas, l, false) then ModRef(false, true) else MOD_REF
    case CatchPad(_) => if l.At? && ConstantOf(aas, l, false) then NO_MOD_REF else MOD_REF
    case CatchRet(_) => if l.At? && ConstantOf(aas, l, false) then NO_MOD_REF else MOD_REF
    case Calling(c) => CallOf(aas, c, l)
    case Other(_) => NO_MOD_REF
  }

  /** The answer for an instruction and, perhaps, a location. */
  function OptionalOf(aas: seq<Analysis>, i: Instr, l: Option<Loc>): ModRef {
    if l.None? && i.Calling? then ModRef(BehaviorOf(aas, i.call).mod, BehaviorOf(aas, i.call).ref)
    else InstrOf(aas, i, if l.Some? then l.value else Anywhere)
  }

  // ----- What really happens to memory ---------------------------------------------------------

  datatype Effect = Effect(mods: iset<Addr>, refs: iset<Addr>)

  const NO_EFFECT: Effect := Effect(iset{}, iset{})

  ghost function Plus(a: Effect, b: Effect): Effect {
    Effect(a.mods + b.mods, a.refs + b.refs)
  }

  /** An execution: the bytes of every location, the effects of every call, split by where
      it reaches memory, and the effects of every other instruction. */
  datatype World = World(
    bytes: Loc -> iset<Addr>,
    throughArg: (Call, nat) -> Effect,
    onHidden: Call -> Effect,
    onOther: Call -> Effect,
    instr: Instr -> Effect,
    hidden: iset<Addr>,
    constant: iset<Addr>,
    local: iset<Addr>)

  ghost predicate Within(e: Effect, region: iset<Addr>) {
    e.mods <= region && e.refs <= region
  }

  /** The memory the program cannot name is not part of any location. */
  ghost predicate Apart(w: World, l: Loc) { w.bytes(l) * w.hidden == iset{} }

  /** A call's effects are where their names say, and constants are not modified. */
  ghost predicate CallPlausible(w: World, c: Call) {
    && (forall i {:trigger w.throughArg(c, i)} :: 0 <= i < |c.args| ==>
          Within(w.throughArg(c, i), if c.args[i].Some? then w.bytes(c.args[i].value) else iset{}))
    && Within(w.onHidden(c), w.hidden)
    && CallEffect(w, c).mods * w.constant == iset{}
  }

  /** Loads, stores and the like touch their own location only, unless they order other
      accesses; nothing modifies constants. */
  ghost predicate InstrPlausible(w: World, i: Instr) {
    && InstrEffect(w, i).mods * w.constant == iset{}
    && match i
       case Load(_, l, o) => StrongerThanUnordered(o) || (w.instr(i).mods == iset{} && w.instr(i).refs <= w.bytes(l))
       case Store(_, l, o) => StrongerThanUnordered(o) || (w.instr(i).refs == iset{} && w.instr(i).mods <= w.bytes(l))
       case VAArg(_, l) => Within(w.instr(i), w.bytes(l))
       case CmpXchg(_, l, o) => StrongerThanMonotonic(o) || Within(w.instr(i), w.bytes(l))
       case Rmw(_, l, o) => StrongerThanMonotonic(o) || Within(w.instr(i), w.bytes(l))
       case Other(_) => w.instr(i) == NO_EFFECT
       case _ => true
  }

  ghost predicate Plausible(w: World) {
    && (forall l {:trigger Apart(w, l)} :: Apart(w, l))
    && (forall c {:trigger CallPlausible(w, c)} :: CallPlausible(w, c))
    && (forall i {:trigger InstrPlausible(w, i)} :: InstrPlausible(w, i))
  }

  ghost function ArgsEffect(w: World, c: Call, n: nat): Effect
    requires n <= |c.args|
  {
    if n == 0 then NO_EFFECT else Plus(ArgsEffect(w, c, n - 1), w.throughArg(c, n - 1))
  }

  ghost function CallEffect(w: World, c: Call): Effect {
    Plus(ArgsEffect(w, c, |c.args|), Plus(w.onHidden(c), w.onOther(c)))
  }

  ghost function InstrEffect(w: World, i: Instr): Effect {
    if i.Calling? then CallEffect(w, i.call) else w.instr(i)
  }

  // ----- The exact answers, and soundness ---------------------------------------------------------

  /** Which accesses the effect makes to the region. */
  ghost function Need(e: Effect, region: iset<Addr>): ModRef {
    ModRef(e.mods * region != iset{}, e.refs * region != iset{})
  }

  ghost const EVERYWHERE: iset<Addr> := iset a: Addr | true

  /** How the first effect depends on the second: Mod if it modifies what the second accesses,
      Ref if it reads what the second modifies. */
  ghost function Depends(e1: Effect, e2: Effect): ModRef {
    ModRef(e1.mods * (e2.mods + e2.refs) != iset{}, e1.refs * e2.mods != iset{})
  }

  /** The behaviour of a call in an execution. */
  ghost function Behaves(w: World, c: Call): Behavior {
    var e := CallEffect(w, c);
    Behavior(ArgsEffect(w, c, |c.args|) != NO_EFFECT, w.onHidden(c) != NO_EFFECT, w.onOther(c) != NO_EFFECT,
             e.mods != iset{}, e.refs != iset{})
  }

  ghost predicate AliasSound(w: World, a: Analysis, l: Loc, k: Loc) {
    a.alias(l, k).NoAlias? ==> w.bytes(l) * w.bytes(k) == iset{}
  }

  ghost predicate ConstantSound(w: World, a: Analysis, l: Loc) {
    (a.constant(l, false) ==> w.bytes(l) <= w.constant) && (a.constant(l, true) ==> w.bytes(l) <= w.constant + w.local)
  }

  ghost predicate ArgSound(w: World, a: Analysis, c: Call, i: nat) {
    Below(Need(w.throughArg(c, i), EVERYWHERE), a.arg(c, i))
  }

  ghost predicate CallSound(w: World, a: Analysis, c: Call, l: Loc) {
    Below(Need(CallEffect(w, c), w.bytes(l)), a.call(c, l))
  }

  ghost predicate CallsSound(w: World, a: Analysis, c: Call, d: Call) {
    Below(Depends(CallEffect(w, c), CallEffect(w, d)), a.calls(c, d))
  }

  ghost predicate BehaviorSound(w: World, a: Analysis, c: Call) {
    BelowBehavior(Behaves(w, c), a.behavior(c))
  }

  /** Every answer of the analysis over-approximates what happens in the execution. */
  ghost predicate Sound(w: World, a: Analysis) {
    && (forall l, k {:trigger AliasSound(w, a, l, k)} :: AliasSound(w, a, l, k))
    && (forall l {:trigger ConstantSound(w, a, l)} :: ConstantSound(w, a, l))
    && (forall c, i: nat {:trigger ArgSound(w, a, c, i)} :: ArgSound(w, a, c, i))
    && (forall c, l {:trigger CallSound(w, a, c, l)} :: CallSound(w, a, c, l))
    && (forall c, d {:trigger CallsSound(w, a, c, d)} :: CallsSound(w, a, c, d))
    && (forall c {:trigger BehaviorSound(w, a, c)} :: BehaviorSound(w, a, c))
  }

  ghost predicate AllSound(w: World, aas: seq<Analysis>) {
    forall k {:trigger Sound(w, aas[k])} :: 0 <= k < |aas| ==> Sound(w, aas[k])
  }

  // ----- Combination of one kind of answer ---------------------------------------------------------

  lemma AllSoundParts(w: World, aas: seq<Analysis>)
    requires AllSound(w, aas) && aas != []
    ensures Sound(w, aas[0]) && AllSound(w, aas[1..]) && Sound(w, aas[|aas| - 1]) && AllSound(w, aas[..|aas| - 1])
  {
    forall k | 0 <= k < |aas| - 1 ensures Sound(w, aas[1..][k]) && Sound(w, aas[..|aas| - 1][k]) {
      assert Sound(w, aas[k + 1]) && Sound(w, aas[k]);
    }
  }

  lemma {:induction false} AliasOfSound(w: World, aas: seq<Analysis>, l: Loc, k: Loc)
    requires AllSound(w, aas) && AliasOf(aas, l, k).NoAlias?
    ensures w.bytes(l) * w.bytes(k) == iset{}
  {
    AllSoundParts(w, aas);
    assert AliasSound(w, aas[0], l, k);
    if aas[0].alias(l, k) == MayAlias {
      AliasOfSound(w, aas[1..], l, k);
    }
  }

  /** What each of the answers says about the bytes of the two locations. */
  ghost predicate AliasTrue(w: World, r: AliasResult, l: Loc, k: Loc) {
    match r
    case NoAlias => w.bytes(l) * w.bytes(k) == iset{}
    case MayAlias => true
    case PartialAlias => w.bytes(l) * w.bytes(k) != iset{} && w.bytes(l) != w.bytes(k)
    case MustAlias => w.bytes(l) == w.bytes(k)
  }

  /** The combined answer is true of two locations, whichever it is, if the answers of all analyses are. */
  lemma {:induction false} AliasOfTrue(w: World, aas: seq<Analysis>, l: Loc, k: Loc)
    requires forall j :: 0 <= j < |aas| ==> AliasTrue(w, aas[j].alias(l, k), l, k)
    ensures AliasTrue(w, AliasOf(aas, l, k), l, k)
  {
    if aas != [] {
      assert AliasTrue(w, aas[0].alias(l, k), l, k);
      AliasOfTrue(w, aas[1..], l, k);
    }
  }

  lemma ConstantOfSound(w: World, aas: seq<Analysis>, l: Loc)
    requires AllSound(w, aas) && ConstantOf(aas, l, false)
    ensures w.bytes(l) <= w.constant
  {
    var k :| 0 <= k < |aas| && aas[k].constant(l, false);
    assert Sound(w, aas[k]) && ConstantSound(w, aas[k], l);
  }

  /** A meet of answers is above whatever all of them are above, and below each of them. */
  lemma {:induction false} MeetOfSound(aas: seq<Analysis>, answer: Analysis -> ModRef, need: ModRef)
    requires forall k :: 0 <= k < |aas| ==> Below(need, answer(aas[k]))
    ensures Below(need, MeetOf(aas, answer))
  {
    if aas != [] {
      MeetOfSound(aas[..|aas| - 1], answer, need);
    }
  }

  lemma {:induction false} BehaviorOfSound(w: World, aas: seq<Analysis>, c: Call)
    requires AllSound(w, aas)
    ensures BelowBehavior(Behaves(w, c), BehaviorOf(aas, c))
  {
    if aas != [] {
      AllSoundParts(w, aas);
      assert BehaviorSound(w, aas[|aas| - 1], c);
      BehaviorOfSound(w, aas[..|aas| - 1], c);
    }
  }

  lemma ArgOfSound(w: World, aas: seq<Analysis>, c: Call, i: nat)
    requires AllSound(w, aas)
    ensures Below(Need(w.throughArg(c, i), EVERYWHERE), ArgOf(aas, c, i))
  {
    var answer := (a: Analysis) => a.arg(c, i);
    forall k | 0 <= k < |aas| ensures Below(Need(w.throughArg(c, i), EVERYWHERE), answer(aas[k])) {
      assert Sound(w, aas[k]) && ArgSound(w, aas[k], c, i);
    }
    MeetOfSound(aas, answer, Need(w.throughArg(c, i), EVERYWHERE));
  }

  // ----- Effects ---------------------------------------------------------------------------------

  lemma NeedPlus(e: Effect, f: Effect, region: iset<Addr>)
    ensures Need(Plus(e, f), region) == Join(Need(e, region), Need(f, region))
  {
    assert (e.mods + f.mods) * region == e.mods * region + f.mods * region;
    assert (e.refs + f.refs) * region == e.refs * region + f.refs * region;
    EmptySum(e.mods * region, f.mods * region);
    EmptySum(e.refs * region, f.refs * region);
  }

  lemma EmptySum(a: iset<Addr>, b: iset<Addr>)
    ensures a + b == iset{} <==> a == iset{} && b == iset{}
  {
    if a + b == iset{} {
      assert forall x :: x in a || x in b ==> x in a + b;
    }
  }

  lemma DependsPlus(d: Effect, e: Effect, f: Effect)
    ensures Depends(d, Plus(e, f)) == Join(Depends(d, e), Depends(d, f))
    ensures Depends(Plus(e, f), d) == Join(Depends(e, d), Depends(f, d))
  {
    assert d.mods * (e.mods + f.mods + (e.refs + f.refs)) == d.mods * (e.mods + e.refs) + d.mods * (f.mods + f.refs);
    assert d.refs * (e.mods + f.mods) == d.refs * e.mods + d.refs * f.mods;
    EmptySum(d.mods * (e.mods + e.refs), d.mods * (f.mods + f.refs));
    EmptySum(d.refs * e.mods, d.refs * f.mods);
    assert (e.mods + f.mods) * (d.mods + d.refs) == e.mods * (d.mods + d.refs) + f.mods * (d.mods + d.refs);
    assert (e.refs + f.refs) * d.mods == e.refs * d.mods + f.refs * d.mods;
    EmptySum(e.mods * (d.mods + d.refs), f.mods * (d.mods + d.refs));
    EmptySum(e.refs * d.mods, f.refs * d.mods);
  }

  lemma NoNeed(region: iset<Addr>)
    ensures Need(NO_EFFECT, region) == NO_MOD_REF
    ensures forall e :: Depends(e, NO_EFFECT) == NO_MOD_REF && Depends(NO_EFFECT, e) == NO_MOD_REF
  {
    assert forall s: iset<Addr> :: s * iset{} == iset{} && iset{} * s == iset{};
  }

  lemma NeedDisjoint(e: Effect, where: iset<Addr>, region: iset<Addr>)
    requires Within(e, where) && where * region == iset{}
    ensures Need(e, region) == NO_MOD_REF
  {
    assert forall a :: a in e.mods * region || a in e.refs * region ==> a in where * region;
  }

  lemma NeedLess(e: Effect, region: iset<Addr>)
    ensures Below(Need(e, region), Need(e, EVERYWHERE))
  {
    assert forall a :: a in e.mods * region ==> a in e.mods * EVERYWHERE;
    assert forall a :: a in e.refs * region ==> a in e.refs * EVERYWHERE;
  }

  /** How a behaviour bounds what a call does to a region. */
  lemma BehavesNeed(w: World, c: Call, b: Behavior, region: iset<Addr>)
    requires BelowBehavior(Behaves(w, c), b)
    ensures Below(Need(CallEffect(w, c), region), ModRef(b.mod, b.ref))
    ensures !b.other ==> w.onOther(c) == NO_EFFECT
    ensures !b.hidden ==> w.onHidden(c) == NO_EFFECT
    ensures !(b.args && (b.mod || b.ref)) ==> ArgsEffect(w, c, |c.args|) == NO_EFFECT
  {
    var e := CallEffect(w, c);
    assert e.mods == iset{} ==> e.mods * region == iset{};
    assert e.refs == iset{} ==> e.refs * region == iset{};
    if !b.mod && !b.ref {
      assert forall a :: a in ArgsEffect(w, c, |c.args|).mods ==> a in e.mods;
      assert forall a :: a in ArgsEffect(w, c, |c.args|).refs ==> a in e.refs;
      assert ArgsEffect(w, c, |c.args|).mods == iset{} && ArgsEffect(w, c, |c.args|).refs == iset{};
    }
  }

  // ----- A call and a location ---------------------------------------------------------------------

  lemma ArgMaskSound(w: World, aas: seq<Analysis>, c: Call, l: Loc, i: nat)
    requires Plausible(w) && AllSound(w, aas) && i < |c.args|
    ensures Below(Need(w.throughArg(c, i), w.bytes(l)), ArgMask(aas, c, l, i))
  {
    assert CallPlausible(w, c);
    var e := w.throughArg(c, i);
    NeedLess(e, w.bytes(l));
    ArgOfSound(w, aas, c, i);
    match c.args[i]
    case None =>
      NeedDisjoint(e, iset{}, w.bytes(l));
    case Some(argLoc) =>
      if AliasOf(aas, argLoc, l).NoAlias? {
        AliasOfSound(w, aas, argLoc, l);
        NeedDisjoint(e, w.bytes(argLoc), w.bytes(l));
      }
  }

  lemma {:induction false} ArgMasksSound(w: World, aas: seq<Analysis>, c: Call, l: Loc, n: nat)
    requires Plausible(w) && AllSound(w, aas) && n <= |c.args|
    ensures Below(Need(ArgsEffect(w, c, n), w.bytes(l)), ArgMasks(aas, c, l, n))
  {
    if n == 0 {
      NoNeed(w.bytes(l));
    } else {
      ArgMasksSound(w, aas, c, l, n - 1);
      ArgMaskSound(w, aas, c, l, n - 1);
      NeedPlus(ArgsEffect(w, c, n - 1), w.throughArg(c, n - 1), w.bytes(l));
    }
  }

  /** Only the arguments matter to a location where nothing but arguments and inaccessible
      memory is accessed. */
  lemma NeedArgs(w: World, c: Call, l: Loc)
    requires Plausible(w) && w.onOther(c) == NO_EFFECT
    ensures Need(CallEffect(w, c), w.bytes(l)) == Need(ArgsEffect(w, c, |c.args|), w.bytes(l))
  {
    assert CallPlausible(w, c) && Apart(w, l);
    var region := w.bytes(l);
    assert w.hidden * region == w.bytes(l) * w.hidden;
    NeedDisjoint(w.onHidden(c), w.hidden, region);
    NoNeed(region);
    NeedPlus(w.onHidden(c), w.onOther(c), region);
    NeedPlus(ArgsEffect(w, c, |c.args|), Plus(w.onHidden(c), w.onOther(c)), region);
  }

  lemma CallMeetSound(w: World, aas: seq<Analysis>, c: Call, l: Loc)
    requires AllSound(w, aas)
    ensures Below(Need(CallEffect(w, c), w.bytes(l)), MeetOf(aas, (a: Analysis) => a.call(c, l)))
  {
    var answer := (a: Analysis) => a.call(c, l);
    forall k | 0 <= k < |aas| ensures Below(Need(CallEffect(w, c), w.bytes(l)), answer(aas[k])) {
      assert Sound(w, aas[k]) && CallSound(w, aas[k], c, l);
    }
    MeetOfSound(aas, answer, Need(CallEffect(w, c), w.bytes(l)));
  }

  /** The combined answer for a call and a location over-approximates every access of the call
      to it. */
  lemma CallOfSound(w: World, aas: seq<Analysis>, c: Call, l: Loc)
    requires Plausible(w) && AllSound(w, aas)
    ensures Below(Need(CallEffect(w, c), w.bytes(l)), CallOf(aas, c, l))
  {
    var b := BehaviorOf(aas, c);
    var need := Need(CallEffect(w, c), w.bytes(l));
    BehaviorOfSound(w, aas, c);
    BehavesNeed(w, c, b, w.bytes(l));
    CallMeetSound(w, aas, c, l);
    if OnlyInaccessibleOrArg(b) {
      NeedArgs(w, c, l);
      ArgMasksSound(w, aas, c, l, |c.args|);
      NoNeed(w.bytes(l));
    }
    if ConstantOf(aas, l, false) {
      ConstantOfSound(w, aas, l);
      assert CallPlausible(w, c);
      assert forall a :: a in CallEffect(w, c).mods * w.bytes(l) ==> a in CallEffect(w, c).mods * w.constant;
      assert !need.mod;
    }
  }

  // ----- Two calls -----------------------------------------------------------------------------------

  lemma DependsNeed(e1: Effect, e2: Effect, region: iset<Addr>)
    requires Within(e2, region)
    ensures Below(Depends(e1, e2), Need(e1, region))
    ensures Depends(e1, e2) != NO_MOD_REF ==> Need(e2, EVERYWHERE) != NO_MOD_REF
    ensures Depends(e1, e2).ref ==> Need(e2, EVERYWHERE).mod
  {
    assert forall a :: a in e1.mods * (e2.mods + e2.refs) ==> a in e1.mods * region;
    assert forall a :: a in e1.refs * e2.mods ==> a in e1.refs * region && a in e2.mods * EVERYWHERE;
    assert forall a :: a in e1.mods * (e2.mods + e2.refs) ==> a in e2.mods * EVERYWHERE || a in e2.refs * EVERYWHERE;
  }

  lemma SecondMaskSound(w: World, aas: seq<Analysis>, c1: Call, c2: Call, i: nat)
    requires Plausible(w) && AllSound(w, aas) && i < |c2.args|
    ensures Below(Depends(CallEffect(w, c1), w.throughArg(c2, i)), SecondMask(aas, c1, c2, i))
  {
    assert CallPlausible(w, c2);
    var e := w.throughArg(c2, i);
    ArgOfSound(w, aas, c2, i);
    match c2.args[i]
    case None =>
      DependsNeed(CallEffect(w, c1), e, iset{});
      assert CallEffect(w, c1).mods * iset{} == iset{} && CallEffect(w, c1).refs * iset{} == iset{};
    case Some(argLoc) =>
      DependsNeed(CallEffect(w, c1), e, w.bytes(argLoc));
      CallOfSound(w, aas, c1, argLoc);
  }

  lemma {:induction false} SecondMasksSound(w: World, aas: seq<Analysis>, c1: Call, c2: Call, n: nat)
    requires Plausible(w) && AllSound(w, aas) && n <= |c2.args|
    ensures Below(Depends(CallEffect(w, c1), ArgsEffect(w, c2, n)), SecondMasks(aas, c1, c2, n))
  {
    if n == 0 {
      NoNeed(iset{});
    } else {
      SecondMasksSound(w, aas, c1, c2, n - 1);
      SecondMaskSound(w, aas, c1, c2, n - 1);
      DependsPlus(CallEffect(w, c1), ArgsEffect(w, c2, n - 1), w.throughArg(c2, n - 1));
    }
  }

  lemma DependsOwn(e1: Effect, e2: Effect, region: iset<Addr>)
    requires Within(e1, region)
    ensures Below(Depends(e1, e2), Need(e1, EVERYWHERE))
    ensures Depends(e1, e2).mod ==> Need(e2, region) != NO_MOD_REF
    ensures Depends(e1, e2).ref ==> Need(e2, region).mod
  {
    assert forall a :: a in e1.mods * (e2.mods + e2.refs) ==> a in e1.mods * EVERYWHERE;
    assert forall a :: a in e1.mods * (e2.mods + e2.refs) ==> a in e2.mods * region || a in e2.refs * region;
    assert forall a :: a in e1.refs * e2.mods ==> a in e1.refs * EVERYWHERE && a in e2.mods * region;
  }

  lemma FirstMaskSound(w: World, aas: seq<Analysis>, c1: Call, c2: Call, i: nat)
    requires Plausible(w) && AllSound(w, aas) && i < |c1.args|
    ensures Below(Depends(w.throughArg(c1, i), CallEffect(w, c2)), FirstMask(aas, c1, c2, i))
  {
    assert CallPlausible(w, c1);
    var e := w.throughArg(c1, i);
    ArgOfSound(w, aas, c1, i);
    match c1.args[i]
    case None =>
      DependsOwn(e, CallEffect(w, c2), iset{});
      assert CallEffect(w, c2).mods * iset{} == iset{} && CallEffect(w, c2).refs * iset{} == iset{};
    case Some(argLoc) =>
      DependsOwn(e, CallEffect(w, c2), w.bytes(argLoc));
      CallOfSound(w, aas, c2, argLoc);
  }

  lemma {:induction false} FirstMasksSound(w: World, aas: seq<Analysis>, c1: Call, c2: Call, n: nat)
    requires Plausible(w) && AllSound(w, aas) && n <= |c1.args|
    ensures Below(Depends(ArgsEffect(w, c1, n), CallEffect(w, c2)), FirstMasks(aas, c1, c2, n))
  {
    if n == 0 {
      NoNeed(iset{});
    } else {
      FirstMasksSound(w, aas, c1, c2, n - 1);
      FirstMaskSound(w, aas, c1, c2, n - 1);
      DependsPlus(CallEffect(w, c2), ArgsEffect(w, c1, n - 1), w.throughArg(c1, n - 1));
    }
  }

  lemma CallsMeetSound(w: World, aas: seq<Analysis>, c1: Call, c2: Call)
    requires AllSound(w, aas)
    ensures Below(Depends(CallEffect(w, c1), CallEffect(w, c2)), MeetOf(aas, (a: Analysis) => a.calls(c1, c2)))
  {
    var answer := (a: Analysis) => a.calls(c1, c2);
    var need := Depends(CallEffect(w, c1), CallEffect(w, c2));
    forall k | 0 <= k < |aas| ensures Below(need, answer(aas[k])) {
      assert Sound(w, aas[k]) && CallsSound(w, aas[k], c1, c2);
    }
    MeetOfSound(aas, answer, need);
  }

  lemma OnlyArgsEffect(w: World, c: Call)
    requires w.onOther(c) == NO_EFFECT && w.onHidden(c) == NO_EFFECT
    ensures CallEffect(w, c) == ArgsEffect(w, c, |c.args|)
  {
    var e := ArgsEffect(w, c, |c.args|);
    assert e.mods + (iset{} + iset{}) == e.mods && e.refs + (iset{} + iset{}) == e.refs;
  }

  lemma DependsBehavior(w: World, c1: Call, c2: Call, b1: Behavior, b2: Behavior)
    requires BelowBehavior(Behaves(w, c1), b1) && BelowBehavior(Behaves(w, c2), b2)
    ensures var need := Depends(CallEffect(w, c1), CallEffect(w, c2));
      && Below(need, ModRef(b1.mod, b1.ref))
      && (!b2.mod ==> !need.ref) && (!b2.mod && !b2.ref ==> !need.mod)
  {
    var e1, e2 := CallEffect(w, c1), CallEffect(w, c2);
    DependsOwn(e1, e2, EVERYWHERE);
    DependsNeed(e1, e2, EVERYWHERE);
    BehavesNeed(w, c1, b1, EVERYWHERE);
    BehavesNeed(w, c2, b2, EVERYWHERE);
  }

  /** The combined answer for two calls over-approximates how the first depends on the second. */
  lemma CallsOfSound(w: World, aas: seq<Analysis>, c1: Call, c2: Call)
    requires Plausible(w) && AllSound(w, aas)
    ensures Below(Depends(CallEffect(w, c1), CallEffect(w, c2)), CallsOf(aas, c1, c2))
  {
    var b1, b2 := BehaviorOf(aas, c1), BehaviorOf(aas, c2);
    BehaviorOfSound(w, aas, c1);
    BehaviorOfSound(w, aas, c2);
    DependsBehavior(w, c1, c2, b1, b2);
    CallsMeetSound(w, aas, c1, c2);
    BehavesNeed(w, c1, b1, EVERYWHERE);
    BehavesNeed(w, c2, b2, EVERYWHERE);
    NoNeed(EVERYWHERE);
    if OnlyArgPointees(b2) {
      OnlyArgsEffect(w, c2);
      SecondMasksSound(w, aas, c1, c2, |c2.args|);
    }
    if OnlyArgPointees(b1) {
      OnlyArgsEffect(w, c1);
      FirstMasksSound(w, aas, c1, c2, |c1.args|);
    }
  }

  // ----- Single instructions ----------------------------------------------------------------------------

  /** The combined answer for an instruction and a location is sound exactly when the instruction
      is not one that reads a constant location it is assumed not to touch. */
  lemma InstrOfSound(w: World, aas: seq<Analysis>, i: Instr, l: Loc)
    requires Plausible(w) && AllSound(w, aas)
    ensures Below(Need(InstrEffect(w, i), w.bytes(l)), InstrOf(aas, i, l))
      <==> !(AssumedUntouched(aas, i, l) && Need(InstrEffect(w, i), w.bytes(l)).ref)
  {
    assert InstrPlausible(w, i);
    var e := InstrEffect(w, i);
    if ConstantOf(aas, l, false) {
      ConstantOfSound(w, aas, l);
      assert forall a :: a in e.mods * w.bytes(l) ==> a in e.mods * w.constant;
      assert !Need(e, w.bytes(l)).mod;
    }
    if i.Calling? {
      CallOfSound(w, aas, i.call, l);
    } else if i.Other? {
      NoNeed(w.bytes(l));
    } else if i.Load? || i.Store? || i.VAArg? || i.CmpXchg? || i.Rmw? {
      OwnLocationSound(w, aas, i, l);
    }
  }

  /** What an instruction with a location of its own does elsewhere. */
  lemma OwnLocationSound(w: World, aas: seq<Analysis>, i: Instr, l: Loc)
    requires Plausible(w) && AllSound(w, aas) && (i.Load? || i.Store? || i.VAArg? || i.CmpXchg? || i.Rmw?)
    ensures !Orders(i) && AliasOf(aas, i.loc, l).NoAlias? ==> Need(w.instr(i), w.bytes(l)) == NO_MOD_REF
    ensures i.Load? && !Orders(i) ==> !Need(w.instr(i), w.bytes(l)).mod
    ensures i.Store? && !Orders(i) ==> !Need(w.instr(i), w.bytes(l)).ref
  {
    assert InstrPlausible(w, i);
    assert forall s: iset<Addr> :: iset{} * s == iset{};
    if !Orders(i) && AliasOf(aas, i.loc, l).NoAlias? {
      AliasOfSound(w, aas, i.loc, l);
      NeedDisjoint(w.instr(i), w.bytes(i.loc), w.bytes(l));
    }
  }

  /** Whether an instruction orders accesses to other locations. */
  predicate Orders(i: Instr) {
    match i
    case Load(_, _, o) => StrongerThanUnordered(o)
    case Store(_, _, o) => StrongerThanUnordered(o)
    case CmpXchg(_, _, o) => StrongerThanMonotonic(o)
    case Rmw(_, _, o) => StrongerThanMonotonic(o)
    case _ => false
  }

  /** The convention behind those answers: what the three kinds of instructions read of constant
      memory does not count as an access. */
  ghost predicate ConstantReadsDoNotCount(w: World) {
    forall i {:trigger InstrEffect(w, i)} :: SparesConstants(i) ==> InstrEffect(w, i).refs * w.constant == iset{}
  }

  /** Under that convention every answer is sound. */
  lemma InstrOfSoundByConvention(w: World, aas: seq<Analysis>, i: Instr, l: Loc)
    requires Plausible(w) && AllSound(w, aas) && ConstantReadsDoNotCount(w)
    ensures Below(Need(InstrEffect(w, i), w.bytes(l)), InstrOf(aas, i, l))
  {
    InstrOfSound(w, aas, i, l);
    if AssumedUntouched(aas, i, l) {
      ConstantOfSound(w, aas, l);
      var e := InstrEffect(w, i);
      assert forall a :: a in e.refs * w.bytes(l) ==> a in e.refs * w.constant;
    }
  }

  /** Without a location, the answer covers everything the instruction does. */
  lemma OptionalOfSound(w: World, aas: seq<Analysis>, i: Instr)
    requires Plausible(w) && AllSound(w, aas)
    ensures Below(Need(InstrEffect(w, i), EVERYWHERE), OptionalOf(aas, i, None))
  {
    assert InstrPlausible(w, i);
    assert forall s: iset<Addr> :: iset{} * s == iset{};
    if i.Calling? {
      BehaviorOfSound(w, aas, i.call);
      BehavesNeed(w, i.call, BehaviorOf(aas, i.call), EVERYWHERE);
    } else if i.Other? {
      NoNeed(EVERYWHERE);
    }
  }
}
