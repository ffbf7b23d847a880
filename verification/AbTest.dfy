/** Finding the files that can be taken from B: one by one, or by bisection. */
module AbTest {
  type Name = nat
  type Variant = nat

  /** A file with its two variants. */
  datatype Choice = Choice(name: Name, a: Variant, b: Variant)

  type Picks = map<Name, Variant>

  /** dict(choices): the last entry for a name stays. */
  function Dict(choices: seq<Choice>): (d: map<Name, Choice>)
    ensures d.Keys == Names(choices)
  {
    if choices == [] then map[]
    else
      var last := choices[|choices| - 1];
      NamesLast(choices);
      Dict(choices[..|choices| - 1])[last.name := last]
  }

  function Names(choices: seq<Choice>): set<Name> {
    set c | c in choices :: c.name
  }

  function NameList(choices: seq<Choice>): (r: seq<Name>)
    ensures |r| == |choices| && forall k :: 0 <= k < |r| ==> r[k] == choices[k].name
  {
    if choices == [] then [] else [choices[0].name] + NameList(choices[1..])
  }

  lemma NamesLast(choices: seq<Choice>)
    requires choices != []
    ensures Names(choices) == Names(choices[..|choices| - 1]) + {choices[|choices| - 1].name}
  {
    var n := |choices| - 1;
    assert choices == choices[..n] + [choices[n]];
    forall x ensures x in Names(choices) <==> x in Names(choices[..n]) + {choices[n].name} {
      if x in Names(choices) {
        var c :| c in choices && c.name == x;
        assert c in choices[..n] || c == choices[n];
      }
    }
  }

  function AllA(choices: seq<Choice>): Picks {
    map x | x in Names(choices) :: Dict(choices)[x].a
  }

  /** Everything from A but for the names in p. */
  function PicksOf(choices: seq<Choice>, p: set<Name>): Picks {
    AllA(choices) + map x | x in p && x in Names(choices) :: Dict(choices)[x].b
  }

  predicate Passes(choices: seq<Choice>, test: Picks -> bool, p: set<Name>) {
    test(PicksOf(choices, p))
  }

  function SetOf(p: seq<Name>): set<Name> {
    set x | x in p
  }

  // ----- One by one ---------------------------------------------------------------------------------

  /** The names that pass alone. */
  ghost function Alone(choices: seq<Choice>, test: Picks -> bool): set<Name> {
    set x | x in Names(choices) && Passes(choices, test, {x})
  }

  /** What the sequential search finds: every entry is tested with its own variant. */
  ghost function Sequential(choices: seq<Choice>, test: Picks -> bool): set<Name> {
    set c | c in choices && test(AllA(choices)[c.name := c.b]) :: c.name
  }

  /** Entries with the same name have the same variant in B. */
  predicate SameB(choices: seq<Choice>) {
    forall c, d :: c in choices && d in choices && c.name == d.name ==> c.b == d.b
  }

  lemma {:induction false} DictIn(choices: seq<Choice>, x: Name)
    requires x in Names(choices)
    ensures Dict(choices)[x] in choices && Dict(choices)[x].name == x
  {
    var n := |choices| - 1;
    NamesLast(choices);
    if x != choices[n].name {
      DictIn(choices[..n], x);
    }
  }

  /** The picks of one sequential test. */
  lemma OnePick(choices: seq<Choice>, c: Choice)
    requires c in choices && Dict(choices)[c.name].b == c.b
    ensures AllA(choices)[c.name := c.b] == PicksOf(choices, {c.name})
  {
    assert c.name in Names(choices);
  }

  /** check_sequentially, for the choices in any order. */
  method CheckSequentially(choices: seq<Choice>, sorted: seq<Choice>, test: Picks -> bool) returns (knownGood: set<Name>)
    requires multiset(sorted) == multiset(choices)
    ensures knownGood == Sequential(choices, test)
    ensures SameB(choices) ==> knownGood == Alone(choices, test)
  {
    knownGood := {};
    var allA := AllA(choices);
    var n := 0;
    while n < |sorted|
      invariant 0 <= n <= |sorted|
      invariant knownGood == set c | c in sorted[..n] && test(allA[c.name := c.b]) :: c.name
    {
      var c := sorted[n];
      if test(allA[c.name := c.b]) {
        knownGood := knownGood + {c.name};
      }
      assert sorted[..n + 1] == sorted[..n] + [c];
      n := n + 1;
    }
    assert sorted[..n] == sorted;
    forall c ensures c in sorted <==> c in choices {
      assert c in multiset(sorted) <==> c in multiset(choices);
    }
    if SameB(choices) {
      SequentialIsAlone(choices, test);
    }
  }

  lemma SequentialIsAlone(choices: seq<Choice>, test: Picks -> bool)
    requires SameB(choices)
    ensures Sequential(choices, test) == Alone(choices, test)
  {
    forall c | c in choices ensures test(AllA(choices)[c.name := c.b]) <==> c.name in Alone(choices, test) {
      DictIn(choices, c.name);
      OnePick(choices, c);
    }
    forall x ensures x in Sequential(choices, test) <==> x in Alone(choices, test) {
      if x in Alone(choices, test) {
        var c :| c in choices && c.name == x;
      }
    }
  }

  /** Whatever is part of something that passes, passes. */
  ghost predicate Inherited(choices: seq<Choice>, test: Picks -> bool) {
    forall p, q :: q <= p <= Names(choices) && Passes(choices, test, p) ==> Passes(choices, test, q)
  }

  /** A test that only one entry passes, with a variant that is not the one in the dictionary. */
  lemma OnlyThis(choices: seq<Choice>, e: Choice, test: Picks -> bool)
    requires e in choices && Dict(choices)[e.name].b != e.b
    requires forall p: Picks :: test(p) <==> p == AllA(choices)[e.name := e.b]
    ensures Inherited(choices, test) && e.name in Sequential(choices, test) && e.name !in Alone(choices, test)
  {
    var target := AllA(choices)[e.name := e.b];
    assert e.name in Names(choices) && PicksOf(choices, {e.name})[e.name] != e.b;
    forall p, q | q <= p <= Names(choices) && Passes(choices, test, p) ensures Passes(choices, test, q) {
      assert PicksOf(choices, p) == target && target[e.name] == e.b;
      FewerPicks(choices, e, target, p, q);
    }
  }

  /** Where everything but one name is picked from A anyway, fewer names make no difference. */
  lemma FewerPicks(choices: seq<Choice>, e: Choice, target: Picks, p: set<Name>, q: set<Name>)
    requires e in choices && Dict(choices)[e.name].b != e.b && target == AllA(choices)[e.name := e.b]
    requires q <= p <= Names(choices) && PicksOf(choices, p) == target
    ensures PicksOf(choices, q) == target
  {
    assert target[e.name] == e.b && e.name !in p;
    forall x | x in Names(choices) ensures PicksOf(choices, q)[x] == target[x] {
      assert PicksOf(choices, p)[x] == target[x];
    }
  }

  /** A test that tells the two searches apart. */
  lemma Telling(choices: seq<Choice>) returns (test: Picks -> bool)
    requires !SameB(choices)
    ensures Inherited(choices, test) && Sequential(choices, test) != Alone(choices, test)
  {
    var c, d :| c in choices && d in choices && c.name == d.name && c.b != d.b;
    var e := if Dict(choices)[c.name].b == c.b then d else c;
    var target := AllA(choices)[e.name := e.b];
    test := (p: Picks) => p == target;
    OnlyThis(choices, e, test);
  }

  /** The sequential search finds exactly what passes alone, on every test whose passing is
      inherited, if and only if entries with the same name have the same variant in B. */
  lemma SequentialExact(choices: seq<Choice>)
    ensures SameB(choices) <==>
      forall test: Picks -> bool :: Inherited(choices, test) ==> Sequential(choices, test) == Alone(choices, test)
  {
    if SameB(choices) {
      forall test: Picks -> bool ensures Sequential(choices, test) == Alone(choices, test) {
        SequentialIsAlone(choices, test);
      }
    } else {
      var test := Telling(choices);
    }
  }

  // ----- Where the choices come from ----------------------------------------------------------------

  /** prepare_functions: the B variant is looked up by name, so a name that comes twice, as a
      function that is listed twice does, comes with the same one. */
  method PrepareFunctions(functionsA: seq<(Name, Variant)>, functionsB: map<Name, Variant>) returns (choices: seq<Choice>)
    ensures forall c :: c in choices <==>
      (c.name, c.a) in functionsA && c.name in functionsB && functionsB[c.name] == c.b && c.a != c.b
    ensures SameB(choices)
  {
    choices := [];
    var i := 0;
    while i < |functionsA|
      invariant 0 <= i <= |functionsA|
      invariant forall c :: c in choices <==>
        (c.name, c.a) in functionsA[..i] && c.name in functionsB && functionsB[c.name] == c.b && c.a != c.b
    {
      var (name, candidateA) := functionsA[i];
      assert functionsA[..i + 1] == functionsA[..i] + [functionsA[i]];
      if name in functionsB && candidateA != functionsB[name] {
        choices := choices + [Choice(name, candidateA, functionsB[name])];
      }
      i := i + 1;
    }
    assert functionsA[..i] == functionsA;
  }

  /** prepare_files: both variants are paths made from the base name of a file; files in
      different directories can have the same one. */
  method PrepareFiles(basenames: seq<Name>, good: Name -> Variant, bad: Name -> Variant, same: (Variant, Variant) -> bool)
    returns (choices: seq<Choice>)
    ensures forall c :: c in choices <==> c.name in basenames && c.a == good(c.name) && c.b == bad(c.name) && !same(c.a, c.b)
    ensures SameB(choices)
  {
    choices := [];
    var i := 0;
    while i < |basenames|
      invariant 0 <= i <= |basenames|
      invariant forall c :: c in choices <==>
        c.name in basenames[..i] && c.a == good(c.name) && c.b == bad(c.name) && !same(c.a, c.b)
    {
      var name := basenames[i];
      assert basenames[..i + 1] == basenames[..i] + [name];
      if !same(good(name), bad(name)) {
        choices := choices + [Choice(name, good(name), bad(name))];
      }
      i := i + 1;
    }
    assert basenames[..i] == basenames;
  }

  // ----- Bisection -------------------------------------------------------------------------------------

  /** The most tests a list of failed partitions can still lead to. */
  function Worst(partitions: seq<seq<Name>>): nat
    requires forall k :: 0 <= k < |partitions| ==> |partitions[k]| > 0
  {
    if partitions == [] then 0 else 2 * (|partitions[0]| - 1) + Worst(partitions[1..])
  }

  lemma {:induction false} WorstApp(a: seq<seq<Name>>, b: seq<seq<Name>>)
    requires forall k :: 0 <= k < |a| ==> |a[k]| > 0
    requires forall k :: 0 <= k < |b| ==> |b[k]| > 0
    ensures Worst(a + b) == Worst(a) + Worst(b)
  {
    if a == [] {
      assert a + b == b;
    } else {
      assert (a + b)[1..] == a[1..] + b;
      WorstApp(a[1..], b);
    }
  }

  lemma WorstOne(p: seq<Name>)
    requires p != []
    ensures Worst([p]) == 2 * (|p| - 1)
  {
    var ps := [p];
    assert ps[1..] == [];
  }

  /** The k-th bound announced leaves room for the tests from the k-th to the n-th, and more others. */
  ghost predicate BoundsHold(announced: seq<nat>, more: nat) {
    forall k :: 0 <= k < |announced| ==> |announced| - k + more <= announced[k]
  }

  // ----- Halving --------------------------------------------------------------------------------------

  /** [a, b) is a half of [lo, hi), or a half of one of its halves, and so on; only halves with at
      least two names are halved again. */
  predicate Below(lo: nat, hi: nat, a: nat, b: nat)
    requires lo < hi
    decreases hi - lo
  {
    var m := lo + (hi - lo) / 2;
    || (lo < m && (a, b) == (lo, m)) || (a, b) == (m, hi)
    || (m - lo > 1 && Below(lo, m, a, b)) || (hi - lo > 2 && hi - m > 1 && Below(m, hi, a, b))
  }

  /** The names from the a-th to before the b-th pass together, and x is one of them. */
  ghost predicate PassesIn(choices: seq<Choice>, test: Picks -> bool, names: seq<Name>, x: Name, a: nat, b: nat) {
    a <= b <= |names| && x in names[a..b] && Passes(choices, test, SetOf(names[a..b]))
  }

  /** What splitting a partition finds, with all that it leads to. */
  ghost function Halved(choices: seq<Choice>, test: Picks -> bool, p: seq<Name>): set<Name>
    decreases |p|, 0
  {
    if p == [] then {}
    else if |p| == 1 then if Passes(choices, test, SetOf(p)) then SetOf(p) else {}
    else Half(choices, test, p[..|p| / 2]) + Half(choices, test, p[|p| / 2..])
  }

  /** What testing a partition finds, with all that it leads to. */
  ghost function Half(choices: seq<Choice>, test: Picks -> bool, p: seq<Name>): set<Name>
    decreases |p|, 1
  {
    if Passes(choices, test, SetOf(p)) then SetOf(p) else if |p| > 1 then Halved(choices, test, p) else {}
  }

  lemma {:induction false} BelowInside(lo: nat, hi: nat, a: nat, b: nat)
    requires lo < hi && Below(lo, hi, a, b)
    ensures lo <= a < b <= hi
    decreases hi - lo
  {
    var m := lo + (hi - lo) / 2;
    if m - lo > 1 && Below(lo, m, a, b) {
      BelowInside(lo, m, a, b);
    }
    if hi - lo > 2 && hi - m > 1 && Below(m, hi, a, b) {
      BelowInside(m, hi, a, b);
    }
  }

  ghost predicate FoundBelow(choices: seq<Choice>, test: Picks -> bool, names: seq<Name>, x: Name, lo: nat, hi: nat)
    requires lo < hi
  {
    exists a: nat, b: nat :: Below(lo, hi, a, b) && PassesIn(choices, test, names, x, a, b)
  }

  lemma HalfExact(choices: seq<Choice>, test: Picks -> bool, names: seq<Name>, x: Name, lo: nat, hi: nat)
    requires lo < hi <= |names|
    ensures x in Half(choices, test, names[lo..hi])
      <==> PassesIn(choices, test, names, x, lo, hi) || (hi - lo > 1 && FoundBelow(choices, test, names, x, lo, hi))
    decreases hi - lo, 1
  {
    if hi - lo > 1 {
      HalvedExact(choices, test, names, x, lo, hi);
    }
    if Passes(choices, test, SetOf(names[lo..hi])) {
      forall a: nat, b: nat | Below(lo, hi, a, b) && PassesIn(choices, test, names, x, a, b) ensures x in names[lo..hi] {
        BelowInside(lo, hi, a, b);
        var k :| 0 <= k < |names[a..b]| && names[a..b][k] == x;
        assert names[lo..hi][a + k - lo] == x;
      }
    }
  }

  /** A name is found exactly if it is in some half, at some depth, whose names pass together. */
  lemma HalvedExact(choices: seq<Choice>, test: Picks -> bool, names: seq<Name>, x: Name, lo: nat, hi: nat)
    requires lo < hi <= |names|
    ensures x in Halved(choices, test, names[lo..hi]) <==> FoundBelow(choices, test, names, x, lo, hi)
    decreases hi - lo, 0
  {
    var p, m := names[lo..hi], lo + (hi - lo) / 2;
    if hi - lo == 1 {
      forall a: nat, b: nat | Below(lo, hi, a, b) ensures (a, b) == (lo, hi) {
      }
      assert Below(lo, hi, lo, hi);
    } else {
      assert p[..|p| / 2] == names[lo..m] && p[|p| / 2..] == names[m..hi];
      HalfExact(choices, test, names, x, lo, m);
      HalfExact(choices, test, names, x, m, hi);
      FoundInHalves(choices, test, names, x, lo, m, hi);
    }
  }

  lemma FoundInHalves(choices: seq<Choice>, test: Picks -> bool, names: seq<Name>, x: Name, lo: nat, m: nat, hi: nat)
    requires lo + 1 < hi <= |names| && m == lo + (hi - lo) / 2
    ensures FoundBelow(choices, test, names, x, lo, hi) <==> (
      || PassesIn(choices, test, names, x, lo, m) || (m - lo > 1 && FoundBelow(choices, test, names, x, lo, m))
      || PassesIn(choices, test, names, x, m, hi) || (hi - m > 1 && FoundBelow(choices, test, names, x, m, hi)))
  {
    assert Below(lo, hi, lo, m) && Below(lo, hi, m, hi);
    forall a: nat, b: nat ensures Below(lo, hi, a, b) <==> (
      || (a, b) == (lo, m) || (a, b) == (m, hi) || (m - lo > 1 && Below(lo, m, a, b)) || (hi - m > 1 && Below(m, hi, a, b)))
    {
    }
  }

  ghost function HalvedAll(choices: seq<Choice>, test: Picks -> bool, ps: seq<seq<Name>>): set<Name> {
    if ps == [] then {} else Halved(choices, test, ps[0]) + HalvedAll(choices, test, ps[1..])
  }

  lemma {:induction false} HalvedAllApp(choices: seq<Choice>, test: Picks -> bool, a: seq<seq<Name>>, b: seq<seq<Name>>)
    ensures HalvedAll(choices, test, a + b) == HalvedAll(choices, test, a) + HalvedAll(choices, test, b)
  {
    if a == [] {
      assert a + b == b;
    } else {
      assert (a + b)[1..] == a[1..] + b;
      HalvedAllApp(choices, test, a[1..], b);
    }
  }

  lemma HalvedOne(choices: seq<Choice>, test: Picks -> bool, p: seq<Name>)
    ensures HalvedAll(choices, test, [p]) == Halved(choices, test, p)
  {
    assert [p][1..] == [];
  }

  /** What is known good, what the failed partitions will give and what is pending are together what
      splitting the whole list finds. */
  ghost predicate Target(choices: seq<Choice>, test: Picks -> bool, good: set<Name>, ps: seq<seq<Name>>, pending: set<Name>) {
    forall open {:trigger Unseal(open)} :: Unseal(open) ==> TargetNow(choices, test, good, ps, pending)
  }

  ghost predicate Unseal(open: bool) { open }

  ghost predicate TargetNow(choices: seq<Choice>, test: Picks -> bool, good: set<Name>, ps: seq<seq<Name>>, pending: set<Name>) {
    good + HalvedAll(choices, test, ps) + pending == Halved(choices, test, NameList(choices))
  }

  lemma TargetStart(choices: seq<Choice>, test: Picks -> bool)
    ensures Target(choices, test, {}, [NameList(choices)], {})
  {
    HalvedOne(choices, test, NameList(choices));
  }

  /** Taking the last of the failed partitions. */
  lemma TargetPop(choices: seq<Choice>, test: Picks -> bool, good: set<Name>, ps: seq<seq<Name>>)
    requires ps != [] && Target(choices, test, good, ps, {})
    ensures var last := |ps| - 1; Target(choices, test, good, ps[..last], Halved(choices, test, ps[last]))
  {
    assert Unseal(true);
    var last := |ps| - 1;
    assert ps == ps[..last] + [ps[last]];
    HalvedAllApp(choices, test, ps[..last], [ps[last]]);
    HalvedOne(choices, test, ps[last]);
  }

  /** Testing one partition. */
  lemma TargetTest(choices: seq<Choice>, test: Picks -> bool, good: set<Name>, ps: seq<seq<Name>>, p: seq<Name>, pending: set<Name>)
    requires p != [] && Target(choices, test, good, ps, Half(choices, test, p) + pending)
    ensures if Passes(choices, test, SetOf(p)) then Target(choices, test, good + SetOf(p), ps, pending)
            else if |p| > 1 then Target(choices, test, good, [p] + ps, pending)
            else Target(choices, test, good, ps, pending)
  {
    assert Unseal(true);
    HalvedAllApp(choices, test, [p], ps);
    HalvedOne(choices, test, p);
  }

  /** Splitting one. */
  lemma TargetSplit(choices: seq<Choice>, test: Picks -> bool, good: set<Name>, ps: seq<seq<Name>>, p: seq<Name>)
    requires p != [] && Target(choices, test, good, ps, Halved(choices, test, p))
    ensures var m := |p| / 2;
      if m > 0 then Target(choices, test, good, ps, Half(choices, test, p[..m]) + Half(choices, test, p[m..]))
      else Target(choices, test, good, ps, Half(choices, test, p[m..]) + {})
  {
    assert Unseal(true);
    if |p| == 1 {
      assert p[0..] == p;
    }
  }

  lemma TargetEnd(choices: seq<Choice>, test: Picks -> bool, good: set<Name>)
    requires choices != [] && Target(choices, test, good, [], {})
    ensures forall x :: x in good <==> FoundBelow(choices, test, NameList(choices), x, 0, |choices|)
  {
    assert Unseal(true);
    var names := NameList(choices);
    forall x ensures x in good <==> FoundBelow(choices, test, names, x, 0, |choices|) {
      assert names[0..|names|] == names;
      HalvedExact(choices, test, names, x, 0, |names|);
    }
  }

  class Bisection {
    const choices: seq<Choice>
    const test: Picks -> bool
    var knownGood: set<Name>
    var partitionsToSplit: seq<seq<Name>>
    /** The bounds printed with the tests, in order. */
    var announced: seq<nat>

    constructor (choices: seq<Choice>, test: Picks -> bool)
      ensures this.choices == choices && this.test == test && knownGood == {} && partitionsToSplit == [] && announced == []
    {
      this.choices, this.test := choices, test;
      knownGood, partitionsToSplit, announced := {}, [], [];
    }

    /** Every partition in the list has failed and can be split. */
    ghost predicate Splittable()
      reads this`partitionsToSplit
    {
      forall k :: 0 <= k < |partitionsToSplit| ==> |partitionsToSplit[k]| > 1
    }

    /** What is known good passed as part of some partition. */
    ghost predicate Justified()
      reads this`knownGood
    {
      forall x :: x in knownGood ==> exists p :: p <= Names(choices) && x in p && Passes(choices, test, p)
    }

    /** A name that passes alone is known good, or still to be looked at. */
    ghost predicate Covered(pending: set<Name>)
      reads this`knownGood, this`partitionsToSplit
    {
      forall x :: x in Alone(choices, test) ==>
        x in knownGood || x in pending || exists k :: 0 <= k < |partitionsToSplit| && x in partitionsToSplit[k]
    }

    ghost predicate Known()
      reads this`partitionsToSplit
    {
      forall k :: 0 <= k < |partitionsToSplit| ==> SetOf(partitionsToSplit[k]) <= Names(choices)
    }

    /** The picks of one test. */
    method Pick(partition: seq<Name>) returns (picks: Picks)
      requires SetOf(partition) <= Names(choices)
      ensures picks == PicksOf(choices, SetOf(partition))
    {
      picks := AllA(choices);
      var i := 0;
      while i < |partition|
        invariant 0 <= i <= |partition|
        invariant picks == PicksOf(choices, SetOf(partition[..i]))
      {
        var x := partition[i];
        assert x in SetOf(partition);
        assert SetOf(partition[..i + 1]) == SetOf(partition[..i]) + {x};
        picks := picks[x := Dict(choices)[x].b];
        i := i + 1;
      }
      assert partition[..i] == partition;
    }

    /** The bound that is printed. */
    method Bound(partition: seq<Name>, upcoming: seq<Name>) returns (bound: int)
      requires Splittable()
      ensures bound == 2 * |partition| - 1 + (if upcoming == [] then 0 else 2 * |upcoming| - 1) + Worst(partitionsToSplit)
    {
      bound := |partition| * 2 - 1;
      if upcoming != [] {
        bound := bound + (|upcoming| * 2 - 1);
      }
      var base, i := bound, 0;
      while i < |partitionsToSplit|
        invariant 0 <= i <= |partitionsToSplit| && bound == base + Worst(partitionsToSplit[..i])
      {
        assert partitionsToSplit[..i + 1] == partitionsToSplit[..i] + [partitionsToSplit[i]];
        WorstApp(partitionsToSplit[..i], [partitionsToSplit[i]]);
        WorstOne(partitionsToSplit[i]);
        bound := bound + (|partitionsToSplit[i]| - 1) * 2;
        i := i + 1;
      }
      assert partitionsToSplit[..i] == partitionsToSplit;
    }

    /** test_partition; upcoming is empty for None. */
    method TestPartition(partition: seq<Name>, upcoming: seq<Name>)
      requires partition != [] && SetOf(partition) <= Names(choices) && Splittable() && Known() && Justified()
      requires Covered(SetOf(partition) + SetOf(upcoming))
      requires BoundsHold(announced, Cost(partition) + (if upcoming == [] then 0 else Cost(upcoming)) + Worst(partitionsToSplit))
      modifies this
      ensures announced == old(announced) + [Cost(partition) + (if upcoming == [] then 0 else Cost(upcoming)) + old(Worst(partitionsToSplit))]
      ensures var passes := Passes(choices, test, SetOf(partition));
        && knownGood == (if passes then old(knownGood) + SetOf(partition) else old(knownGood))
        && partitionsToSplit == if passes || |partition| == 1 then old(partitionsToSplit) else [partition] + old(partitionsToSplit)
      ensures Splittable() && Known() && Justified() && Covered(SetOf(upcoming)) && announced != []
      ensures Worst(partitionsToSplit) <= old(Worst(partitionsToSplit)) + 2 * (|partition| - 1)
      ensures BoundsHold(announced, (if upcoming == [] then 0 else Cost(upcoming)) + Worst(partitionsToSplit))
    {
      var bound := Bound(partition, upcoming);
      var picks := Pick(partition);
      announced := announced + [bound];
      if test(picks) {
        assert Passes(choices, test, SetOf(partition));
        knownGood := knownGood + SetOf(partition);
      } else if |partition| > 1 {
        WorstApp([partition], partitionsToSplit);
        WorstOne(partition);
        partitionsToSplit := [partition] + partitionsToSplit;
        assert partitionsToSplit[0] == partition;
        assert forall k :: 0 <= k < |old(partitionsToSplit)| ==> partitionsToSplit[k + 1] == old(partitionsToSplit)[k];
      } else {
        assert SetOf(partition) == {partition[0]};
      }
    }

    method CheckBisect()
      requires knownGood == {} && partitionsToSplit == [] && announced == []
      modifies this
      ensures partitionsToSplit == []
      ensures Alone(choices, test) <= knownGood
      ensures Justified()
      ensures forall k :: 0 <= k < |announced| ==> |announced| - k <= announced[k]
      ensures forall x :: x in knownGood <==> choices != [] && FoundBelow(choices, test, NameList(choices), x, 0, |choices|)
    {
      if |choices| == 0 {
        return;
      }
      partitionsToSplit := [NameList(choices)];
      TargetStart(choices, test);
      while |partitionsToSplit| > 0
        invariant Splittable() || (announced == [] && partitionsToSplit == [NameList(choices)])
        invariant Known() && Justified() && Covered({}) && Target(choices, test, knownGood, partitionsToSplit, {})
        invariant NonEmpty() && BoundsHold(announced, Worst(partitionsToSplit))
        decreases if announced == [] then 1 else 0, if NonEmpty() then Worst(partitionsToSplit) else 0
      {
        var partition := partitionsToSplit[|partitionsToSplit| - 1];
        TargetPop(choices, test, knownGood, partitionsToSplit);
        PopLast();
        SplitAndTest(partition);
      }
      TargetEnd(choices, test, knownGood);
    }

    ghost predicate NonEmpty()
      reads this`partitionsToSplit
    {
      forall k :: 0 <= k < |partitionsToSplit| ==> |partitionsToSplit[k]| > 0
    }

    /** partitions_to_split.pop(). */
    method PopLast()
      requires partitionsToSplit != [] && NonEmpty() && Known() && Covered({})
      modifies this`partitionsToSplit
      ensures var last := |old(partitionsToSplit)| - 1;
        && partitionsToSplit == old(partitionsToSplit)[..last] && NonEmpty() && Known()
        && Worst(partitionsToSplit) + 2 * (|old(partitionsToSplit)[last]| - 1) == old(Worst(partitionsToSplit))
        && Covered(SetOf(old(partitionsToSplit)[last])) && SetOf(old(partitionsToSplit)[last]) <= Names(choices)
    {
      var last := |partitionsToSplit| - 1;
      assert partitionsToSplit == partitionsToSplit[..last] + [partitionsToSplit[last]];
      WorstApp(partitionsToSplit[..last], [partitionsToSplit[last]]);
      WorstOne(partitionsToSplit[last]);
      partitionsToSplit := partitionsToSplit[..last];
    }

    /** The body of the loop: both halves are tested. */
    method SplitAndTest(partition: seq<Name>)
      requires partition != [] && SetOf(partition) <= Names(choices) && Splittable() && Known() && Justified()
      requires Covered(SetOf(partition)) && NonEmpty()
      requires Target(choices, test, knownGood, partitionsToSplit, Halved(choices, test, partition))
      requires BoundsHold(announced, 2 * (|partition| - 1) + Worst(partitionsToSplit)) && (|partition| == 1 ==> announced == [])
      modifies this
      ensures Splittable() && Known() && Justified() && Covered({}) && NonEmpty()
      ensures Target(choices, test, knownGood, partitionsToSplit, {})
      ensures announced != [] && BoundsHold(announced, Worst(partitionsToSplit))
      ensures |partition| > 1 ==> Worst(partitionsToSplit) < old(Worst(partitionsToSplit)) + 2 * (|partition| - 1)
    {
      var middle := |partition| / 2;
      var left, right := partition[0..middle], partition[middle..];
      assert partition == left + right;
      assert SetOf(partition) == SetOf(left) + SetOf(right);
      TargetSplit(choices, test, knownGood, partitionsToSplit, partition);
      ghost var later := Half(choices, test, right);
      assert later + {} == later;
      if |left| > 0 {
        TargetTest(choices, test, knownGood, partitionsToSplit, left, later);
        TestPartition(left, right);
      } else {
        assert SetOf(left) == {};
      }
      assert |right| > 0;
      TargetTest(choices, test, knownGood, partitionsToSplit, right, {});
      TestPartition(right, []);
      assert SetOf([]) == {};
    }
  }

  /** The most tests that testing a partition can lead to. */
  function Cost(p: seq<Name>): nat
    requires p != []
  {
    2 * |p| - 1
  }

  // ----- What bisection finds ------------------------------------------------------------------------

  ghost predicate JustifiedBy(choices: seq<Choice>, test: Picks -> bool, good: set<Name>) {
    forall x :: x in good ==> exists p :: p <= Names(choices) && x in p && Passes(choices, test, p)
  }

  /** Where passing is inherited by parts, bisection finds exactly what the sequential test finds. */
  lemma SameAsSequential(choices: seq<Choice>, test: Picks -> bool, good: set<Name>)
    requires Alone(choices, test) <= good && JustifiedBy(choices, test, good) && Inherited(choices, test)
    ensures good == Alone(choices, test)
  {
    forall x | x in good ensures x in Alone(choices, test) {
      var p :| p <= Names(choices) && x in p && Passes(choices, test, p);
      assert {x} <= p;
    }
  }

  /** Both searches on the same files. */
  method Both(choices: seq<Choice>, sorted: seq<Choice>, test: Picks -> bool) returns (sequential: set<Name>, bisected: set<Name>)
    requires multiset(sorted) == multiset(choices) && SameB(choices)
    ensures sequential <= bisected
    ensures Inherited(choices, test) ==> sequential == bisected
  {
    sequential := CheckSequentially(choices, sorted, test);
    var b := new Bisection(choices, test);
    b.CheckBisect();
    bisected := b.knownGood;
    if Inherited(choices, test) {
      SameAsSequential(choices, test, bisected);
    }
  }
}
