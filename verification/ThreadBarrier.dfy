/** The rendezvous of any number of worker threads and one releasing thread, as atomic steps
    in any order: what happens between a thread's operations on the mutex, the condition
    variable and the two counters. */
module ThreadBarrier {
  /** Where a thread is.  Waiting is inside pthread_cond_wait; Woken has been signalled and
      wants the mutex back; Failed is a failed assertion. */
  datatype Pc =
    | Outside | Entered | Counted | Announced
    | Zeroing | ClearingWait | Broadcasting
    | Waiting | Woken | Leaving | Returned | Failed

  datatype Mutex = Free | HeldBy(thread: nat)

  /** Threads 0 to workers - 1 call block, thread number workers calls releaseThreads. */
  datatype State = State(workers: nat, n: nat, waitFor: nat, mutex: Mutex, pcs: seq<Pc>)

  function WakeAll(pcs: seq<Pc>): (r: seq<Pc>)
    ensures |r| == |pcs|
    ensures forall k :: 0 <= k < |pcs| ==> r[k] == if pcs[k].Waiting? then Woken else pcs[k]
  {
    if pcs == [] then [] else [if pcs[0].Waiting? then Woken else pcs[0]] + WakeAll(pcs[1..])
  }

  predicate Shaped(s: State) {
    |s.pcs| == s.workers + 1
  }

  function Move(s: State, t: nat, pc: Pc): State
    requires t < |s.pcs|
  {
    s.(pcs := s.pcs[t := pc])
  }

  /** Whether the thread can take a step: not while it waits, nor while another one has the
      mutex it wants. */
  predicate Enabled(s: State, t: nat) {
    t < |s.pcs| && match s.pcs[t]
      case Outside => s.mutex.Free?
      case Woken => s.mutex.Free?
      case Waiting => false
      case Returned => false
      case Failed => false
      case _ => true
  }

  /** One atomic step of a thread. */
  function Next(s: State, t: nat): State
    requires Enabled(s, t)
  {
    match s.pcs[t]
    case Outside => Move(s.(mutex := HeldBy(t)), t, Entered)
    case Entered =>
      if t < s.workers then Move(s.(n := s.n + 1), t, Counted)
      else if s.n >= s.workers then Move(s, t, Zeroing)
      else Move(s.(waitFor := s.workers), t, Announced)
    case Counted =>
      if !(s.waitFor == 0 || s.n <= s.waitFor) then Move(s, t, Failed)
      else if s.waitFor > 0 && s.n == s.waitFor then Move(s, t, Zeroing)
      else Move(s.(mutex := Free), t, Waiting)
    case Announced => Move(s.(mutex := Free), t, Waiting)
    case Zeroing => Move(s.(n := 0), t, ClearingWait)
    case ClearingWait => Move(s.(waitFor := 0), t, Broadcasting)
    case Broadcasting => Move(s.(pcs := WakeAll(s.pcs)), t, Leaving)
    case Woken => Move(s.(mutex := HeldBy(t)), t, Leaving)
    case Leaving => Move(s.(mutex := Free), t, Returned)
    case _ => s
  }

  function Init(workers: nat): State {
    State(workers, 0, 0, Free, seq(workers + 1, i => Outside))
  }

  /** The states after each thread of a schedule has taken a step, those that cannot being skipped. */
  function RunOn(s: State, schedule: seq<nat>): State {
    if schedule == [] then s
    else
      var s' := RunOn(s, schedule[..|schedule| - 1]);
      var t := schedule[|schedule| - 1];
      if Enabled(s', t) then Next(s', t) else s'
  }

  ghost predicate Reachable(s: State) {
    exists schedule :: s == RunOn(Init(s.workers), schedule)
  }

  // ----- The object -----------------------------------------------------------------------------

  class WaitForThreads {
    const workers: nat
    var n: nat
    var waitFor: nat
    var mutex: Mutex
    var pcs: seq<Pc>

    ghost function Value(): State
      reads this
    {
      State(workers, n, waitFor, mutex, pcs)
    }

    constructor (workers: nat)
      ensures Value() == Init(workers)
    {
      this.workers, n, waitFor, mutex := workers, 0, 0, Free;
      pcs := seq(workers + 1, i => Outside);
    }

    method Lock(t: nat)
      requires t < |pcs| && mutex.Free?
      modifies this`mutex
      ensures mutex == HeldBy(t)
    {
      mutex := HeldBy(t);
    }

    /** pthread_cond_wait, up to where the thread is inside it. */
    method CondWait(t: nat)
      requires t < |pcs|
      modifies this`mutex, this`pcs
      ensures Value() == Move(old(Value()).(mutex := Free), t, Waiting)
    {
      mutex := Free;
      pcs := pcs[t := Waiting];
    }

    method Broadcast()
      modifies this`pcs
      ensures pcs == WakeAll(old(pcs))
    {
      var woken, i := pcs, 0;
      while i < |pcs|
        invariant 0 <= i <= |pcs| && |woken| == |pcs| && pcs == old(pcs)
        invariant forall k :: 0 <= k < i ==> woken[k] == WakeAll(pcs)[k]
        invariant forall k :: i <= k < |pcs| ==> woken[k] == pcs[k]
      {
        if pcs[i].Waiting? {
          woken := woken[i := Woken];
        }
        i := i + 1;
      }
      pcs := woken;
    }

    /** A worker in block, after it has the mutex. */
    method Block(t: nat)
      requires t < |pcs| && t < workers && (pcs[t].Entered? || pcs[t].Counted?)
      modifies this
      ensures Value() == Next(old(Value()), t)
    {
      if pcs[t].Entered? {
        n := n + 1;
        pcs := pcs[t := Counted];
      } else if !(waitFor == 0 || n <= waitFor) {
        pcs := pcs[t := Failed];
      } else if waitFor > 0 && n == waitFor {
        pcs := pcs[t := Zeroing];
      } else {
        CondWait(t);
      }
    }

    /** The releasing thread in releaseThreads, after it has the mutex. */
    method ReleaseThreads(t: nat)
      requires t < |pcs| && t >= workers && (pcs[t].Entered? || pcs[t].Announced?)
      modifies this
      ensures Value() == Next(old(Value()), t)
    {
      if pcs[t].Entered? {
        if n >= workers {
          pcs := pcs[t := Zeroing];
        } else {
          waitFor := workers;
          pcs := pcs[t := Announced];
        }
      } else {
        CondWait(t);
      }
    }

    method UnblockThreads(t: nat)
      requires t < |pcs| && (pcs[t].Zeroing? || pcs[t].ClearingWait? || pcs[t].Broadcasting?)
      modifies this
      ensures Value() == Next(old(Value()), t)
    {
      if pcs[t].Zeroing? {
        n := 0;
        pcs := pcs[t := ClearingWait];
      } else if pcs[t].ClearingWait? {
        waitFor := 0;
        pcs := pcs[t := Broadcasting];
      } else {
        Broadcast();
        pcs := pcs[t := Leaving];
      }
    }

    /** One step of a thread, if it can take one. */
    method Step(t: nat)
      requires Reachable(Value())
      modifies this
      ensures Value() == if Enabled(old(Value()), t) then Next(old(Value()), t) else old(Value())
    {
      ReachableInv(Value());
      if t >= |pcs| {
        return;
      }
      match pcs[t]
      case Outside =>
        if mutex.Free? {
          Lock(t);
          pcs := pcs[t := Entered];
        }
      case Woken =>
        if mutex.Free? {
          Lock(t);
          pcs := pcs[t := Leaving];
        }
      case Entered =>
        if t < workers {
          Block(t);
        } else {
          ReleaseThreads(t);
        }
      case Counted => Block(t);
      case Announced => ReleaseThreads(t);
      case Leaving =>
        mutex := Free;
        pcs := pcs[t := Returned];
      case Waiting =>
      case Returned =>
      case Failed =>
      case _ => UnblockThreads(t);
    }

    /** Any schedule. */
    method Run(schedule: seq<nat>)
      requires Value() == Init(workers)
      modifies this
      ensures Value() == RunOn(Init(workers), schedule)
    {
      var i := 0;
      assert schedule[..0] == [];
      while i < |schedule|
        invariant 0 <= i <= |schedule| && Value() == RunOn(Init(workers), schedule[..i])
      {
        assert schedule[..i + 1][..i] == schedule[..i];
        Step(schedule[i]);
        i := i + 1;
      }
      assert schedule[..i] == schedule;
    }
  }

  // ----- The invariant ----------------------------------------------------------------------------

  predicate HasMutex(pc: Pc) {
    pc.Entered? || pc.Counted? || pc.Announced? || pc.Zeroing? || pc.ClearingWait? || pc.Broadcasting? || pc.Leaving?
    || pc.Failed?
  }

  predicate Arrived(pc: Pc) { pc.Counted? || pc.Waiting? }

  /** How many of the first k threads are counted in n. */
  function CountTo(pcs: seq<Pc>, k: nat): nat
    requires k <= |pcs|
  {
    if k == 0 then 0 else CountTo(pcs, k - 1) + if Arrived(pcs[k - 1]) then 1 else 0
  }

  /** The mutex is held by the one thread that is between a lock and an unlock. */
  predicate MutexOk(s: State) {
    forall t :: 0 <= t < |s.pcs| ==> (HasMutex(s.pcs[t]) <==> s.mutex == HeldBy(t))
  }

  predicate Early(pc: Pc) { pc.Outside? || pc.Entered? || pc.Counted? || pc.Announced? || pc.Waiting? }

  /** Before the release: n counts the workers that have arrived, waitFor says whether the
      releasing thread has, and they have not all gone to wait. */
  predicate Gathering(s: State)
    requires Shaped(s)
  {
    && (forall t :: 0 <= t < |s.pcs| ==> Early(s.pcs[t]))
    && (forall t :: 0 <= t < s.workers ==> !s.pcs[t].Announced?) && !s.pcs[s.workers].Counted?
    && s.n == CountTo(s.pcs, s.workers)
    && s.waitFor == (if s.pcs[s.workers].Announced? || s.pcs[s.workers].Waiting? then s.workers else 0)
    && (s.waitFor > 0 ==> exists t :: 0 <= t < s.workers && !s.pcs[t].Waiting?)
    && (s.pcs[s.workers].Announced? || s.pcs[s.workers].Waiting? ==> s.workers > 0)
  }

  /** Somebody is releasing, and everybody else waits. */
  predicate Releasing(s: State)
    requires Shaped(s)
  {
    exists r :: 0 <= r < |s.pcs| && ReleasedBy(s, r)
  }

  predicate ReleasedBy(s: State, r: nat)
    requires r < |s.pcs|
  {
    && (s.pcs[r].Zeroing? || (s.pcs[r].ClearingWait? && s.n == 0) || (s.pcs[r].Broadcasting? && s.n == 0 && s.waitFor == 0))
    && forall t :: 0 <= t < |s.pcs| && t != r ==> s.pcs[t].Waiting?
  }

  /** Everybody is past the barrier, and the counters are reset. */
  predicate Departing(s: State) {
    s.n == 0 && s.waitFor == 0 && forall t :: 0 <= t < |s.pcs| ==> Past(s.pcs[t])
  }

  predicate Past(pc: Pc) { pc.Woken? || pc.Leaving? || pc.Returned? }

  predicate Inv(s: State) {
    Shaped(s) && MutexOk(s) && (Gathering(s) || Releasing(s) || Departing(s))
  }

  lemma {:induction false} CountNone(pcs: seq<Pc>, k: nat)
    requires k <= |pcs| && forall t :: 0 <= t < k ==> !Arrived(pcs[t])
    ensures CountTo(pcs, k) == 0
  {
    if k > 0 {
      CountNone(pcs, k - 1);
    }
  }

  /** Moving one thread changes the count by that thread. */
  lemma {:induction false} CountMove(pcs: seq<Pc>, k: nat, t: nat, pc: Pc)
    requires k <= |pcs| && t < |pcs|
    ensures CountTo(pcs[t := pc], k)
      == CountTo(pcs, k) + if t < k then (if Arrived(pc) then 1 else 0) - (if Arrived(pcs[t]) then 1 else 0) else 0
  {
    if k > 0 {
      CountMove(pcs, k - 1, t, pc);
    }
  }

  /** All of the first k have arrived exactly if the count says k. */
  lemma {:induction false} CountAll(pcs: seq<Pc>, k: nat)
    requires k <= |pcs|
    ensures CountTo(pcs, k) <= k
    ensures CountTo(pcs, k) == k <==> forall t :: 0 <= t < k ==> Arrived(pcs[t])
  {
    if k > 0 {
      CountAll(pcs, k - 1);
    }
  }

  lemma InitInv(workers: nat)
    ensures Inv(Init(workers))
  {
    CountNone(Init(workers).pcs, workers);
  }

  lemma MutexNext(s: State, t: nat)
    requires Inv(s) && Enabled(s, t)
    ensures MutexOk(Next(s, t))
  {
    var s' := Next(s, t);
    forall k | 0 <= k < |s.pcs| ensures HasMutex(s'.pcs[k]) <==> s'.mutex == HeldBy(k) {
      assert HasMutex(s.pcs[k]) <==> s.mutex == HeldBy(k);
      assert HasMutex(s.pcs[t]) <==> s.mutex == HeldBy(t);
    }
  }

  /** With the mutex at one thread, every other thread that has arrived waits. */
  lemma OthersWait(s: State, t: nat)
    requires Shaped(s) && MutexOk(s) && Gathering(s) && t < |s.pcs| && HasMutex(s.pcs[t])
    requires CountTo(s.pcs, s.workers) == s.workers && (t == s.workers || s.waitFor > 0)
    ensures forall k :: 0 <= k < |s.pcs| && k != t ==> s.pcs[k].Waiting?
  {
    CountAll(s.pcs, s.workers);
    forall k | 0 <= k < |s.pcs| && k != t ensures s.pcs[k].Waiting? {
      assert !HasMutex(s.pcs[k]);
      assert k < s.workers ==> Arrived(s.pcs[k]);
    }
  }

  lemma GatheringCounted(s: State, t: nat)
    requires Inv(s) && Gathering(s) && Enabled(s, t) && s.pcs[t].Counted?
    ensures Inv(Next(s, t))
  {
    var s' := Next(s, t);
    MutexNext(s, t);
    CountAll(s.pcs, s.workers);
    if s.waitFor > 0 && s.n == s.waitFor {
      OthersWait(s, t);
      assert ReleasedBy(s', t);
    } else {
      CountMove(s.pcs, s.workers, t, Waiting);
      if s.waitFor > 0 {
        var k :| 0 <= k < s.workers && !Arrived(s.pcs[k]);
        assert !s'.pcs[k].Waiting?;
      }
      assert Gathering(s');
    }
  }

  lemma GatheringEntered(s: State, t: nat)
    requires Inv(s) && Gathering(s) && Enabled(s, t) && s.pcs[t].Entered?
    ensures Inv(Next(s, t))
  {
    var s' := Next(s, t);
    MutexNext(s, t);
    CountAll(s.pcs, s.workers);
    if t < s.workers {
      CountMove(s.pcs, s.workers, t, Counted);
      if s.waitFor > 0 {
        assert !s'.pcs[t].Waiting?;
      }
      assert Gathering(s');
    } else if s.n >= s.workers {
      OthersWait(s, t);
      assert ReleasedBy(s', t);
    } else {
      CountMove(s.pcs, s.workers, t, Announced);
      var k :| 0 <= k < s.workers && !Arrived(s.pcs[k]);
      assert !s'.pcs[k].Waiting?;
      assert Gathering(s');
    }
  }

  lemma GatheringElse(s: State, t: nat)
    requires Inv(s) && Gathering(s) && Enabled(s, t) && (s.pcs[t].Outside? || s.pcs[t].Announced?)
    ensures Inv(Next(s, t))
  {
    var s' := Next(s, t);
    MutexNext(s, t);
    CountMove(s.pcs, s.workers, t, s'.pcs[t]);
    if s.waitFor > 0 {
      var k :| 0 <= k < s.workers && !s.pcs[k].Waiting?;
      assert !s'.pcs[k].Waiting?;
    }
    assert Gathering(s');
  }

  lemma ReleasingNext(s: State, t: nat)
    requires Inv(s) && Releasing(s) && Enabled(s, t)
    ensures Inv(Next(s, t))
  {
    var r :| 0 <= r < |s.pcs| && ReleasedBy(s, r);
    var s' := Next(s, t);
    MutexNext(s, t);
    assert t == r;
    if !s.pcs[r].Broadcasting? {
      assert ReleasedBy(s', r);
    }
  }

  lemma InvNext(s: State, t: nat)
    requires Inv(s) && Enabled(s, t)
    ensures Inv(Next(s, t))
  {
    if Gathering(s) {
      if s.pcs[t].Counted? {
        GatheringCounted(s, t);
      } else if s.pcs[t].Entered? {
        GatheringEntered(s, t);
      } else {
        GatheringElse(s, t);
      }
    } else if Releasing(s) {
      ReleasingNext(s, t);
    } else {
      MutexNext(s, t);
    }
  }

  lemma {:induction false} RunInv(workers: nat, schedule: seq<nat>)
    ensures Inv(RunOn(Init(workers), schedule)) && RunOn(Init(workers), schedule).workers == workers
  {
    if schedule == [] {
      InitInv(workers);
    } else {
      var before := schedule[..|schedule| - 1];
      RunInv(workers, before);
      var s, t := RunOn(Init(workers), before), schedule[|schedule| - 1];
      if Enabled(s, t) {
        InvNext(s, t);
      }
    }
  }

  lemma ReachableInv(s: State)
    requires Reachable(s)
    ensures Inv(s)
    ensures forall t :: 0 <= t < |s.pcs| ==> (s.pcs[t].Announced? ==> t >= s.workers) && (s.pcs[t].Counted? ==> t < s.workers)
  {
    var schedule :| s == RunOn(Init(s.workers), schedule);
    RunInv(s.workers, schedule);
  }

  // ----- What the rendezvous guarantees --------------------------------------------------------------

  /** Nobody is past the barrier before everybody has arrived: if one thread is on its way out, all
      workers and the releasing thread have come in, and none of them can still be held up by it. */
  lemma BarrierSafe(s: State, t: nat)
    requires Reachable(s) && t < |s.pcs| && Past(s.pcs[t])
    ensures forall k :: 0 <= k < |s.pcs| ==> Past(s.pcs[k])
  {
    ReachableInv(s);
    assert !Gathering(s);
    if Releasing(s) {
      ReleasingNotPast(s, t);
    }
  }

  lemma ReleasingNotPast(s: State, t: nat)
    requires Shaped(s) && Releasing(s) && t < |s.pcs|
    ensures !Past(s.pcs[t])
  {
  }

  /** The assertion on n holds in every run. */
  lemma AssertionHolds(s: State)
    requires Reachable(s)
    ensures forall t :: 0 <= t < |s.pcs| ==> !s.pcs[t].Failed?
    ensures forall t :: 0 <= t < |s.pcs| && s.pcs[t].Counted? ==> s.waitFor == 0 || s.n <= s.waitFor
  {
    ReachableInv(s);
    if Gathering(s) {
      CountAll(s.pcs, s.workers);
    }
  }

  /** As long as somebody has not returned, somebody can take a step. */
  lemma NeverStuck(s: State) returns (t: nat)
    requires Reachable(s) && exists k :: 0 <= k < |s.pcs| && !s.pcs[k].Returned?
    ensures Enabled(s, t)
  {
    ReachableInv(s);
    if s.mutex.HeldBy? && s.mutex.thread < |s.pcs| {
      t := s.mutex.thread;
      assert HasMutex(s.pcs[t]);
    } else {
      assert s.mutex.Free? by {
        MutexInside(s);
      }
      forall k | 0 <= k < |s.pcs| ensures !HasMutex(s.pcs[k]) {
        assert HasMutex(s.pcs[k]) <==> s.mutex == HeldBy(k);
      }
      if Gathering(s) {
        t := OneOutside(s);
      } else {
        assert Departing(s);
        t :| 0 <= t < |s.pcs| && !s.pcs[t].Returned?;
      }
    }
  }

  lemma OneOutside(s: State) returns (t: nat)
    requires Inv(s) && Gathering(s) && s.mutex.Free? && forall k :: 0 <= k < |s.pcs| ==> !HasMutex(s.pcs[k])
    ensures t < |s.pcs| && s.pcs[t].Outside?
  {
    if s.pcs[s.workers].Outside? {
      t := s.workers;
    } else {
      assert s.pcs[s.workers].Waiting?;
      t :| 0 <= t < s.workers && !s.pcs[t].Waiting?;
    }
  }

  /** The mutex is never held by a thread that does not exist. */
  lemma MutexInside(s: State)
    requires Reachable(s)
    ensures s.mutex.HeldBy? ==> s.mutex.thread < |s.pcs|
  {
    var schedule :| s == RunOn(Init(s.workers), schedule);
    RunMutexInside(s.workers, schedule);
  }

  lemma {:induction false} RunMutexInside(workers: nat, schedule: seq<nat>)
    ensures var s := RunOn(Init(workers), schedule); s.mutex.HeldBy? ==> s.mutex.thread < |s.pcs|
  {
    if schedule != [] {
      RunMutexInside(workers, schedule[..|schedule| - 1]);
    }
  }

  // ----- Every run ends ---------------------------------------------------------------------------------

  function Rank(pc: Pc): nat {
    match pc
    case Outside => 9
    case Entered => 8
    case Counted => 7
    case Announced => 7
    case Zeroing => 6
    case ClearingWait => 5
    case Broadcasting => 4
    case Waiting => 3
    case Woken => 2
    case Leaving => 1
    case Returned => 0
    case Failed => 0
  }

  function Left(pcs: seq<Pc>): nat {
    if pcs == [] then 0 else Rank(pcs[0]) + Left(pcs[1..])
  }

  lemma {:induction false} LeftLess(a: seq<Pc>, b: seq<Pc>)
    requires |a| == |b| && forall k :: 0 <= k < |a| ==> Rank(b[k]) <= Rank(a[k])
    ensures Left(b) <= Left(a)
    ensures (exists k :: 0 <= k < |a| && Rank(b[k]) < Rank(a[k])) ==> Left(b) < Left(a)
  {
    if a != [] {
      LeftLess(a[1..], b[1..]);
      if k :| 0 <= k < |a| && Rank(b[k]) < Rank(a[k]) {
        if k > 0 {
          assert Rank(b[1..][k - 1]) < Rank(a[1..][k - 1]);
        }
      }
    }
  }

  /** Every step brings the end nearer. */
  lemma NextLess(s: State, t: nat)
    requires Enabled(s, t)
    ensures Left(Next(s, t).pcs) < Left(s.pcs)
  {
    var pcs := Next(s, t).pcs;
    assert Rank(pcs[t]) < Rank(s.pcs[t]);
    LeftLess(s.pcs, pcs);
  }

  /** A schedule in which everybody takes a step when it is due. */
  ghost predicate AllEnabled(s: State, schedule: seq<nat>) {
    forall k :: 0 <= k < |schedule| ==> Enabled(RunOn(s, schedule[..k]), schedule[k])
  }

  lemma {:induction false} RunLess(s: State, schedule: seq<nat>)
    requires AllEnabled(s, schedule)
    ensures |schedule| + Left(RunOn(s, schedule).pcs) <= Left(s.pcs)
  {
    if schedule != [] {
      var before := schedule[..|schedule| - 1];
      forall k | 0 <= k < |before| ensures Enabled(RunOn(s, before[..k]), before[k]) {
        assert before[..k] == schedule[..k];
      }
      RunLess(s, before);
      NextLess(RunOn(s, before), schedule[|schedule| - 1]);
    }
  }

  lemma {:induction false} LeftInit(pcs: seq<Pc>)
    requires forall k :: 0 <= k < |pcs| ==> pcs[k].Outside?
    ensures Left(pcs) == 9 * |pcs|
  {
    if pcs != [] {
      LeftInit(pcs[1..]);
    }
  }

  /** However the threads take turns, after at most nine steps each nobody can take another one,
      and by then everybody has returned. */
  lemma EverybodyReturns(workers: nat, schedule: seq<nat>)
    requires AllEnabled(Init(workers), schedule)
    ensures |schedule| <= 9 * (workers + 1)
    ensures var s := RunOn(Init(workers), schedule);
      (forall t :: !Enabled(s, t)) <==> forall k :: 0 <= k < |s.pcs| ==> s.pcs[k].Returned?
  {
    RunLess(Init(workers), schedule);
    LeftInit(Init(workers).pcs);
    RunInv(workers, schedule);
    var s := RunOn(Init(workers), schedule);
    assert Reachable(s);
    if k :| 0 <= k < |s.pcs| && !s.pcs[k].Returned? {
      var t := NeverStuck(s);
    }
  }

  // ----- Without the assumption ----------------------------------------------------------------------------

  /** A wakeup that nobody caused. */
  function Spurious(s: State, t: nat): State
    requires t < |s.pcs| && s.pcs[t].Waiting?
  {
    Move(s, t, Woken)
  }

  /** The wait is not in a loop that checks again: one spurious wakeup lets a worker through before the
      releasing thread has come. */
  lemma SpuriousWakeupBreaksTheBarrier(workers: nat)
    requires workers > 0
    ensures var waiting := RunOn(Init(workers), [0, 0, 0]);
      && 0 < |waiting.pcs| && waiting.pcs[0].Waiting?
      && var s := RunOn(Spurious(waiting, 0), [0, 0]);
      |s.pcs| == workers + 1 && s.pcs[0].Returned? && s.pcs[workers].Outside?
  {
    var s0 := Init(workers);
    var s1, s2 := Next(s0, 0), Next(Next(s0, 0), 0);
    var waiting := Next(s2, 0);
    RunThree(s0, 0);
    var woken := Spurious(waiting, 0);
    RunTwo(woken, 0);
  }

  lemma RunOne(s: State, t: nat)
    requires Enabled(s, t)
    ensures RunOn(s, [t]) == Next(s, t)
  {
    assert [t][..0] == [];
  }

  lemma RunTwo(s: State, t: nat)
    requires Enabled(s, t) && Enabled(Next(s, t), t)
    ensures RunOn(s, [t, t]) == Next(Next(s, t), t)
  {
    RunOne(s, t);
    assert [t, t][..1] == [t];
  }

  lemma RunThree(s: State, t: nat)
    requires Enabled(s, t) && Enabled(Next(s, t), t) && Enabled(Next(Next(s, t), t), t)
    ensures RunOn(s, [t, t, t]) == Next(Next(Next(s, t), t), t)
  {
    RunTwo(s, t);
    assert [t, t, t][..2] == [t, t];
  }
}
