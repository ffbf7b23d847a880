/** Aligning blocks that several lists have in common by inserting empty blocks. */
module McaAlign {
  import opened McaBlocks
  import opened McaSpread

  // ----- The script ------------------------------------------------------------------------------

  function KeyIndex(keys: seq<Key>, key: Key): (k: nat)
    requires key in keys
    ensures k < |keys| && keys[k] == key && forall j :: 0 <= j < k ==> keys[j] != key
  {
    if keys[0] == key then 0 else 1 + KeyIndex(keys[1..], key)
  }

  /** all_blocks[key] = blocks. */
  function PlaceKey(keys: seq<Key>, key: Key): seq<Key> {
    if key in keys then keys else keys + [key]
  }

  function PlaceList(keys: seq<Key>, lists: seq<seq<Block>>, key: Key, blocks: seq<Block>): seq<seq<Block>>
    requires |lists| == |keys|
  {
    if key in keys then lists[KeyIndex(keys, key) := blocks] else lists + [blocks]
  }

  datatype State = State(keys: seq<Key>, lists: seq<seq<Block>>, cache: map<Block, nat>)

  type Runs = seq<(Key, seq<Block>)>

  /** One run line: its list comes in under its key, and everything is aligned again. */
  function RunLine(s: State, key: Key, blocks: seq<Block>): (t: State)
    requires |s.lists| == |s.keys|
    ensures |t.lists| == |t.keys|
  {
    AlignedLength(PlaceList(s.keys, s.lists, key, blocks), s.cache);
    var (lists, cache) := Aligned(PlaceList(s.keys, s.lists, key, blocks), s.cache);
    State(PlaceKey(s.keys, key), lists, cache)
  }

  /** The state after all run lines. */
  function AfterRuns(runs: Runs): (s: State)
    ensures |s.lists| == |s.keys|
  {
    if runs == [] then State([], [], map[])
    else RunLine(AfterRuns(runs[..|runs| - 1]), runs[|runs| - 1].0, runs[|runs| - 1].1)
  }

  lemma AfterNext(runs: Runs, n: nat)
    requires n < |runs|
    ensures AfterRuns(runs[..n + 1]) == RunLine(AfterRuns(runs[..n]), runs[n].0, runs[n].1)
  {
    assert runs[..n + 1][..n] == runs[..n];
  }

  lemma AlignedLength(lists: seq<seq<Block>>, cache: map<Block, nat>)
    ensures |Aligned(lists, cache).0| == |lists|
  {
    AlignedFacts(lists, cache);
  }

  // ----- What aligning does --------------------------------------------------------------------------

  lemma {:induction false} AnalysedListCached(blocks: seq<Block>, k: nat, cache: map<Block, nat>, b: Block)
    requires k <= |blocks| && b != ""
    ensures Cached(AnalysedList(blocks, k, cache), b) == if b in blocks[k..] then Max(Cached(cache, b), IndexIn(blocks, b)) else Cached(cache, b)
    decreases |blocks| - k
  {
    if k < |blocks| {
      var x := blocks[k];
      var raised := x != "" && FirstIndex(blocks, x) > Cached(cache, x);
      AnalysedListCached(blocks, k + 1, if raised then cache[x := FirstIndex(blocks, x)] else cache, b);
      assert blocks[k..] == [x] + blocks[k + 1..];
    }
  }

  lemma {:induction false} FarthestCons(lists: seq<seq<Block>>, b: Block)
    requires lists != []
    ensures Farthest(lists, b) == Max(IndexIn(lists[0], b), Farthest(lists[1..], b))
    decreases |lists|
  {
    var n := |lists| - 1;
    if n > 0 {
      FarthestCons(lists[..n], b);
      assert lists[1..][..n - 1] == lists[..n][1..];
    }
  }

  lemma {:induction false} AnalysedCached(lists: seq<seq<Block>>, cache: map<Block, nat>, b: Block)
    requires b != ""
    ensures Cached(Analysed(lists, cache), b) == Max(Cached(cache, b), Farthest(lists, b))
    decreases |lists|
  {
    if lists != [] {
      AnalysedListCached(lists[0], 0, cache, b);
      assert lists[0][0..] == lists[0];
      AnalysedCached(lists[1..], AnalysedList(lists[0], 0, cache), b);
      FarthestCons(lists, b);
    }
  }

  /** Of the lists from the s-th on, the i-th is the first with a block that can be shunted along, and
      its k-th block is the first such one. */
  ghost predicate FirstMove(lists: seq<seq<Block>>, s: nat, i: nat, k: nat, cache: map<Block, nat>) {
    && s <= i < |lists| && PairAt(lists[i], k) && k < Cached(cache, lists[i][k])
    && (forall j :: 0 <= j < k && PairAt(lists[i], j) ==> j >= Cached(cache, lists[i][j]))
    && forall m, j :: s <= m < i && PairAt(lists[m], j) ==> j >= Cached(cache, lists[m][j])
  }

  lemma FirstInList(lists: seq<seq<Block>>, i: nat, k: nat, cache: map<Block, nat>)
    requires i < |lists| && k < |lists[i]| && k == MoveIn(lists[i], 0, cache)
    ensures FirstMove(lists, i, i, k, cache)
  {
    forall j | 0 <= j < k && PairAt(lists[i], j) ensures j >= Cached(cache, lists[i][j]) {
      assert !Movable(lists[i], j, cache);
    }
  }

  lemma FirstFromNext(lists: seq<seq<Block>>, i: nat, cache: map<Block, nat>)
    requires i < |lists| && MoveIn(lists[i], 0, cache) == |lists[i]|
    ensures forall m: nat, k: nat :: FirstMove(lists, i + 1, m, k, cache) ==> FirstMove(lists, i, m, k, cache)
  {
    forall j | PairAt(lists[i], j) ensures j >= Cached(cache, lists[i][j]) {
      assert !Movable(lists[i], j, cache);
    }
  }

  /** A round moves the first block that can be shunted along. */
  lemma {:induction false} StepMovesFirst(lists: seq<seq<Block>>, i: nat, cache: map<Block, nat>)
    requires i <= |lists| && Step(lists, i, cache).0
    ensures exists m: nat, k: nat :: FirstMove(lists, i, m, k, cache) && InsertedAt(lists, Step(lists, i, cache).1, cache, m, k)
    decreases |lists| - i
  {
    var k := MoveIn(lists[i], 0, cache);
    if k < |lists[i]| {
      FirstInList(lists, i, k, cache);
      assert InsertedAt(lists, Shunt(lists, i, k, cache), cache, i, k);
    } else {
      StepMovesFirst(lists, i + 1, cache);
      FirstFromNext(lists, i, cache);
    }
  }

  lemma {:induction false} NoStepSettled(lists: seq<seq<Block>>, i: nat, cache: map<Block, nat>)
    requires i <= |lists| && !Step(lists, i, cache).0
    ensures forall j, k :: i <= j < |lists| && PairAt(lists[j], k) ==> k >= Cached(cache, lists[j][k])
    decreases |lists| - i
  {
    if i < |lists| {
      NoStepSettled(lists, i + 1, cache);
      forall k | PairAt(lists[i], k) ensures k >= Cached(cache, lists[i][k]) {
        assert !Movable(lists[i], k, cache);
      }
    }
  }

  /** In each list, no block has gone back to the front. */
  ghost predicate NotBack(before: seq<seq<Block>>, after: seq<seq<Block>>) {
    |before| == |after|
    && forall i, b {:trigger IndexIn(before[i], b)} {:trigger IndexIn(after[i], b)} ::
      0 <= i < |before| && b != "" ==> IndexIn(before[i], b) <= IndexIn(after[i], b)
  }

  lemma InsertionNotBack(before: seq<seq<Block>>, after: seq<seq<Block>>, cache: map<Block, nat>)
    requires OneInsertion(before, after, cache)
    ensures NotBack(before, after)
  {
    var i: nat, k: nat :| i < |before| && InsertedAt(before, after, cache, i, k);
    forall j, b | 0 <= j < |before| && b != "" ensures IndexIn(before[j], b) <= IndexIn(after[j], b) {
      if j == i {
        InsertMoves(before[i], k, Cached(cache, before[i][k]) - k, b);
      }
    }
  }

  lemma NotBackFarthest(before: seq<seq<Block>>, after: seq<seq<Block>>, b: Block)
    requires NotBack(before, after) && b != ""
    ensures Farthest(before, b) <= Farthest(after, b)
  {
    FarthestGrows(before, after, b);
  }

  lemma NotBackTrans(a: seq<seq<Block>>, b: seq<seq<Block>>, c: seq<seq<Block>>)
    requires NotBack(a, b) && NotBack(b, c)
    ensures NotBack(a, c)
  {
    forall i, x | 0 <= i < |a| && x != "" ensures IndexIn(a[i], x) <= IndexIn(c[i], x) {
      assert IndexIn(a[i], x) <= IndexIn(b[i], x);
    }
  }

  /** The same blocks, none of them farther to the front, every neighbour where it belongs, and in
      the cache what was there or what the lists say now. */
  ghost predicate AlignedFrom(lists: seq<seq<Block>>, cache: map<Block, nat>, after: seq<seq<Block>>, c: map<Block, nat>) {
    && |after| == |lists| && SameFilled(lists, after) && NotBack(lists, after) && Settled(after, c)
    && forall b :: b != "" ==> Cached(c, b) == Max(Cached(cache, b), Farthest(after, b))
  }

  lemma AlignedStep(lists: seq<seq<Block>>, cache: map<Block, nat>, next: seq<seq<Block>>, c: map<Block, nat>,
                    after: seq<seq<Block>>, c': map<Block, nat>)
    requires OneInsertion(lists, next, c) && AlignedFrom(next, c, after, c')
    requires forall b :: b != "" ==> Cached(c, b) == Max(Cached(cache, b), Farthest(lists, b))
    ensures AlignedFrom(lists, cache, after, c')
  {
    InsertionFacts(lists, next, c);
    InsertionNotBack(lists, next, c);
    NotBackTrans(lists, next, after);
    forall b | b != "" ensures Cached(c', b) == Max(Cached(cache, b), Farthest(after, b)) {
      NotBackFarthest(next, after, b);
      NotBackFarthest(lists, next, b);
    }
  }

  /** What is true when nothing changes any more. */
  lemma {:induction false} AlignedFacts(lists: seq<seq<Block>>, cache: map<Block, nat>)
    ensures AlignedFrom(lists, cache, Aligned(lists, cache).0, Aligned(lists, cache).1)
    decreases TotalPairs(lists)
  {
    var c := Analysed(lists, cache);
    forall b | b != "" ensures Cached(c, b) == Max(Cached(cache, b), Farthest(lists, b)) {
      AnalysedCached(lists, cache, b);
    }
    var (moved, next) := Step(lists, 0, c);
    if moved {
      InsertionFacts(lists, next, c);
      AlignedFacts(next, c);
      AlignedStep(lists, cache, next, c, Aligned(next, c).0, Aligned(next, c).1);
    } else {
      NoStepSettled(lists, 0, c);
    }
  }

  lemma InsertionShunted(lists: seq<seq<Block>>, next: seq<seq<Block>>, c: map<Block, nat>, i: nat, raw: seq<Block>, floor: map<Block, nat>)
    requires OneInsertion(lists, next, c) && i < |lists| && Shunted(raw, lists[i], floor)
    requires forall b :: b != "" ==> Cached(floor, b) <= Cached(c, b)
    ensures i < |next| && Shunted(raw, next[i], floor)
  {
    var j: nat, k: nat :| j < |lists| && InsertedAt(lists, next, c, j, k);
    if j == i {
      ShuntedInsert(raw, lists[i], floor, k, Cached(c, lists[i][k]) - k);
    }
  }

  /** A list that is some output, shunted along, still is afterwards. */
  lemma {:induction false} AlignedShunted(lists: seq<seq<Block>>, cache: map<Block, nat>, i: nat, raw: seq<Block>, floor: map<Block, nat>)
    requires i < |lists| && Shunted(raw, lists[i], floor) && forall b :: b != "" ==> Cached(floor, b) <= Cached(cache, b)
    ensures i < |Aligned(lists, cache).0| && Shunted(raw, Aligned(lists, cache).0[i], floor)
    decreases TotalPairs(lists)
  {
    var c := Analysed(lists, cache);
    forall b | b != "" ensures Cached(floor, b) <= Cached(c, b) {
      AnalysedCached(lists, cache, b);
    }
    var (moved, next) := Step(lists, 0, c);
    if moved {
      InsertionFacts(lists, next, c);
      InsertionShunted(lists, next, c, i, raw, floor);
      AlignedShunted(next, c, i, raw, floor);
    }
  }

  // ----- What a run line does --------------------------------------------------------------------------

  /** Whether the cache is right after a run line can be told before it for a key that is new. */
  lemma NewKeyKeepsCache(keys: seq<Key>, lists: seq<seq<Block>>, cache: map<Block, nat>, key: Key, blocks: seq<Block>)
    requires |lists| == |keys| && key !in keys && CacheRight(lists, cache)
    ensures var (after, c) := Aligned(PlaceList(keys, lists, key, blocks), cache); CacheRight(after, c)
  {
    var placed := PlaceList(keys, lists, key, blocks);
    AlignedFacts(placed, cache);
    forall b | b != "" ensures Farthest(lists, b) <= Farthest(placed, b) {
      FarthestGrows(lists, placed, b);
    }
    NotAheadRight(placed, cache);
  }

  /** A cache that is not ahead of the lists is right when they have been aligned. */
  lemma NotAheadRight(lists: seq<seq<Block>>, cache: map<Block, nat>)
    requires CacheNotAhead(lists, cache)
    ensures CacheRight(Aligned(lists, cache).0, Aligned(lists, cache).1)
  {
    AlignedFacts(lists, cache);
    forall b | b != "" ensures Cached(cache, b) <= Farthest(Aligned(lists, cache).0, b) {
      NotBackFarthest(lists, Aligned(lists, cache).0, b);
    }
  }

  /** The same output again under the same key: its list starts again, with a cache that is ahead
      of it, and catches up. */
  lemma SameKeyKeepsCache(keys: seq<Key>, lists: seq<seq<Block>>, cache: map<Block, nat>, key: Key, blocks: seq<Block>)
    requires |lists| == |keys| && key in keys && CacheRight(lists, cache)
    requires NoRepeats(blocks) && Shunted(blocks, lists[KeyIndex(keys, key)], map[])
    ensures var (after, c) := Aligned(PlaceList(keys, lists, key, blocks), cache); CacheRight(after, c)
  {
    var i := KeyIndex(keys, key);
    var placed := lists[i := blocks];
    var (after, c) := Aligned(placed, cache);
    AlignedFacts(placed, cache);
    ShuntedStart(blocks, cache);
    AlignedShunted(placed, cache, i, blocks, cache);
    forall x | x != "" ensures IndexIn(lists[i], x) <= Cached(cache, x) {
      FarthestAtLeast(lists, x, i);
    }
    forall b | b != "" ensures Cached(cache, b) <= Farthest(after, b) {
      forall j | 0 <= j < |lists| ensures IndexIn(lists[j], b) <= IndexIn(after[j], b) {
        if j == i {
          ListCatchesUp(blocks, lists[i], after[i], cache, b);
        } else {
          assert placed[j] == lists[j];
        }
      }
      FarthestGrows(lists, after, b);
    }
  }

  /** When the cache stays right through a run line. */
  lemma KeepsCache(keys: seq<Key>, lists: seq<seq<Block>>, cache: map<Block, nat>, key: Key, blocks: seq<Block>)
    requires |lists| == |keys|
    ensures var (after, c) := Aligned(PlaceList(keys, lists, key, blocks), cache);
      (CacheRight(lists, cache) && (key in keys ==> NoRepeats(blocks) && Shunted(blocks, lists[KeyIndex(keys, key)], map[])))
      ==> CacheRight(after, c)
  {
    if CacheRight(lists, cache) {
      if key !in keys {
        NewKeyKeepsCache(keys, lists, cache, key, blocks);
      } else if NoRepeats(blocks) && Shunted(blocks, lists[KeyIndex(keys, key)], map[]) {
        SameKeyKeepsCache(keys, lists, cache, key, blocks);
      }
    }
  }

  // ----- All run lines ---------------------------------------------------------------------------------

  /** A key that comes again brings the same output, in which no block comes twice. */
  ghost predicate Repeatable(runs: Runs) {
    forall i, j :: 0 <= i < j < |runs| && runs[i].0 == runs[j].0 ==> runs[i].1 == runs[j].1 && NoRepeats(runs[j].1)
  }

  predicate DistinctSeq(keys: seq<Key>) {
    forall i, j :: 0 <= i < j < |keys| ==> keys[i] != keys[j]
  }

  /** The output of the last run line with a key. */
  function LastOutput(runs: Runs, key: Key): (blocks: seq<Block>)
    ensures (exists r :: 0 <= r < |runs| && runs[r].0 == key) ==>
      exists r :: 0 <= r < |runs| && runs[r].0 == key && runs[r].1 == blocks && forall q :: r < q < |runs| ==> runs[q].0 != key
  {
    if runs == [] then []
    else if runs[|runs| - 1].0 == key then runs[|runs| - 1].1
    else LastOutput(runs[..|runs| - 1], key)
  }

  predicate Comes(runs: Runs, key: Key) {
    exists r :: 0 <= r < |runs| && runs[r].0 == key
  }

  lemma ComesLast(runs: Runs, n: nat, key: Key)
    requires |runs| == n + 1
    ensures Comes(runs, key) <==> Comes(runs[..n], key) || runs[n].0 == key
    ensures LastOutput(runs, key) == if runs[n].0 == key then runs[n].1 else LastOutput(runs[..n], key)
  {
    if Comes(runs, key) && runs[n].0 != key {
      var r :| 0 <= r < |runs| && runs[r].0 == key;
      assert runs[..n][r].0 == key;
    }
    if Comes(runs[..n], key) {
      var r :| 0 <= r < n && runs[..n][r].0 == key;
      assert runs[r].0 == key;
    }
  }

  ghost predicate OutputAt(runs: Runs, s: State, i: nat)
    requires |s.lists| == |s.keys| && i < |s.keys|
  {
    Filled(s.lists[i]) == Filled(LastOutput(runs, s.keys[i]))
  }

  /** The keys are those of the run lines, and every list has the blocks of the last output under
      its key. */
  ghost predicate LastOutputs(runs: Runs, s: State) {
    && |s.lists| == |s.keys| && DistinctSeq(s.keys)
    && (forall key {:trigger Comes(runs, key)} :: Comes(runs, key) <==> key in s.keys)
    && forall i {:trigger OutputAt(runs, s, i)} :: 0 <= i < |s.keys| ==> OutputAt(runs, s, i)
  }

  lemma {:induction false} RunsOutputs(runs: Runs)
    ensures LastOutputs(runs, AfterRuns(runs)) && (runs != [] ==> Settled(AfterRuns(runs).lists, AfterRuns(runs).cache))
    decreases |runs|
  {
    if runs != [] {
      var n := |runs| - 1;
      var s, t := AfterRuns(runs[..n]), AfterRuns(runs);
      RunsOutputs(runs[..n]);
      var placed := PlaceList(s.keys, s.lists, runs[n].0, runs[n].1);
      AlignedFacts(placed, s.cache);
      StillLastOutputs(runs, n, s, t, placed);
    }
  }

  lemma StillLastOutputs(runs: Runs, n: nat, s: State, t: State, placed: seq<seq<Block>>)
    requires |runs| == n + 1 && LastOutputs(runs[..n], s) && placed == PlaceList(s.keys, s.lists, runs[n].0, runs[n].1)
    requires t.keys == PlaceKey(s.keys, runs[n].0) && SameFilled(placed, t.lists)
    ensures LastOutputs(runs, t)
  {
    forall key ensures Comes(runs, key) <==> key in t.keys {
      ComesLast(runs, n, key);
      assert Comes(runs[..n], key) <==> key in s.keys;
    }
    forall i | 0 <= i < |t.keys| ensures OutputAt(runs, t, i) {
      ComesLast(runs, n, t.keys[i]);
      assert Filled(t.lists[i]) == Filled(placed[i]);
      if t.keys[i] != runs[n].0 {
        assert OutputAt(runs[..n], s, i);
      }
    }
  }

  ghost predicate FromAt(runs: Runs, key: Key, blocks: seq<Block>) {
    exists r :: 0 <= r < |runs| && runs[r].0 == key && Shunted(runs[r].1, blocks, map[])
  }

  /** Every list is the output under its key, shunted along. */
  ghost predicate FromOutputs(runs: Runs, s: State) {
    |s.lists| == |s.keys|
    && forall i {:trigger FromAt(runs, s.keys[i], s.lists[i])} :: 0 <= i < |s.keys| ==> FromAt(runs, s.keys[i], s.lists[i])
  }

  /** Where keys that come again bring the same output, without repeated blocks, the cache is right
      after every run line. */
  lemma {:induction false} RunsCacheRight(runs: Runs)
    requires Repeatable(runs)
    ensures FromOutputs(runs, AfterRuns(runs)) && CacheRight(AfterRuns(runs).lists, AfterRuns(runs).cache)
    decreases |runs|
  {
    if runs != [] {
      var n := |runs| - 1;
      var s := AfterRuns(runs[..n]);
      var (key, blocks) := runs[n];
      RunsCacheRight(runs[..n]);
      if key in s.keys {
        var k := KeyIndex(s.keys, key);
        assert FromAt(runs[..n], s.keys[k], s.lists[k]);
        var r :| 0 <= r < n && runs[..n][r].0 == s.keys[k] && Shunted(runs[..n][r].1, s.lists[k], map[]);
        assert runs[r].0 == runs[n].0;
        SameKeyKeepsCache(s.keys, s.lists, s.cache, key, blocks);
      } else {
        NewKeyKeepsCache(s.keys, s.lists, s.cache, key, blocks);
      }
      StillFromOutputs(runs, s);
    }
  }

  lemma StillFromOutputs(runs: Runs, s: State)
    requires runs != [] && s == AfterRuns(runs[..|runs| - 1]) && FromOutputs(runs[..|runs| - 1], s)
    ensures FromOutputs(runs, AfterRuns(runs))
  {
    var n, t := |runs| - 1, AfterRuns(runs);
    var placed := PlaceList(s.keys, s.lists, runs[n].0, runs[n].1);
    forall i | 0 <= i < |t.keys| ensures FromAt(runs, t.keys[i], t.lists[i]) {
      PlacedFrom(runs, n, s, placed, i);
      FromAligned(runs, placed, s.cache, i, t.keys[i]);
    }
  }

  lemma FromAligned(runs: Runs, placed: seq<seq<Block>>, cache: map<Block, nat>, i: nat, key: Key)
    requires i < |placed| && FromAt(runs, key, placed[i])
    ensures i < |Aligned(placed, cache).0| && FromAt(runs, key, Aligned(placed, cache).0[i])
  {
    var r :| 0 <= r < |runs| && runs[r].0 == key && Shunted(runs[r].1, placed[i], map[]);
    AlignedShunted(placed, cache, i, runs[r].1, map[]);
  }

  lemma PlacedFrom(runs: Runs, n: nat, s: State, placed: seq<seq<Block>>, i: nat)
    requires |runs| == n + 1 && FromOutputs(runs[..n], s) && placed == PlaceList(s.keys, s.lists, runs[n].0, runs[n].1)
    requires i < |placed|
    ensures FromAt(runs, PlaceKey(s.keys, runs[n].0)[i], placed[i])
  {
    if i < |s.keys| && !(runs[n].0 in s.keys && i == KeyIndex(s.keys, runs[n].0)) {
      assert FromAt(runs[..n], s.keys[i], s.lists[i]);
      var r :| 0 <= r < n && runs[..n][r].0 == s.keys[i] && Shunted(runs[..n][r].1, s.lists[i], map[]);
      assert runs[r].0 == s.keys[i];
    } else {
      ShuntedStart(runs[n].1, map[]);
      assert runs[n].0 == PlaceKey(s.keys, runs[n].0)[i];
    }
  }

  /** The lists by key, in the order in which the keys were first seen, and the cache. */
  class Alignment {
    var keys: seq<Key>
    var lists: seq<seq<Block>>
    var farthest: map<Block, nat>
    var maxBlockLen: nat

    ghost predicate Valid()
      reads this`keys, this`lists
    {
      |keys| == |lists| && forall i, j :: 0 <= i < j < |keys| ==> keys[i] != keys[j]
    }

    ghost function Value(): State
      reads this
    {
      State(keys, lists, farthest)
    }

    constructor ()
      ensures Valid() && keys == [] && lists == [] && farthest == map[] && maxBlockLen == 0
    {
      keys, lists, farthest, maxBlockLen := [], [], map[], 0;
    }

    /** The farthest-block analysis: the cache is raised, never lowered. */
    method Analyse()
      modifies this`farthest
      ensures farthest == Analysed(lists, old(farthest))
      ensures forall b :: b != "" ==> Cached(farthest, b) == Max(old(Cached(farthest, b)), Farthest(lists, b))
    {
      var i := 0;
      while i < |lists|
        invariant 0 <= i <= |lists| && Analysed(lists[i..], farthest) == Analysed(lists, old(farthest))
        invariant forall b :: b != "" ==> Cached(farthest, b) == Max(old(Cached(farthest, b)), Farthest(lists[..i], b))
      {
        assert lists[i..][1..] == lists[i + 1..] && lists[i..][0] == lists[i];
        AnalyseList(lists[i]);
        assert lists[..i + 1][..i] == lists[..i];
        i := i + 1;
      }
      assert lists[..i] == lists;
    }

    method AnalyseList(blocks: seq<Block>)
      modifies this`farthest
      ensures farthest == AnalysedList(blocks, 0, old(farthest))
      ensures forall b :: b != "" ==> Cached(farthest, b) == Max(old(Cached(farthest, b)), IndexIn(blocks, b))
    {
      var k := 0;
      while k < |blocks|
        invariant 0 <= k <= |blocks| && AnalysedList(blocks, k, farthest) == AnalysedList(blocks, 0, old(farthest))
        invariant forall b :: b != "" ==>
          Cached(farthest, b) == if b in blocks[..k] then Max(old(Cached(farthest, b)), IndexIn(blocks, b)) else old(Cached(farthest, b))
      {
        var block := blocks[k];
        assert blocks[..k + 1] == blocks[..k] + [block];
        if block != "" {
          var index := FirstIndex(blocks, block);
          if index > Cached(farthest, block) {
            farthest := farthest[block := index];
          }
        }
        k := k + 1;
      }
      assert blocks[..k] == blocks;
    }

    /** Looks for a block that can be shunted along in one list. */
    method AlignList(i: nat) returns (changed: bool)
      requires i < |lists|
      modifies this`lists
      ensures var k := MoveIn(old(lists)[i], 0, farthest);
        && (changed <==> k < |old(lists)[i]|)
        && lists == if changed then Shunt(old(lists), i, k, farthest) else old(lists)
      ensures !changed ==> forall k :: PairAt(lists[i], k) ==> k >= Cached(farthest, lists[i][k])
    {
      var k := 0;
      while k < |lists[i]|
        invariant lists == old(lists) && 0 <= k <= |lists[i]| && MoveIn(lists[i], 0, farthest) == MoveIn(lists[i], k, farthest)
        invariant forall j :: 0 <= j < k && PairAt(lists[i], j) ==> j >= Cached(farthest, lists[i][j])
      {
        var block := lists[i][k];
        if block == "" {
          k := k + 1;
          continue;
        }
        changed := false;
        if k > 0 && lists[i][k - 1] != "" {
          changed := InsertBlanks(i, k);
        }
        if changed {
          return true;
        }
        k := k + 1;
      }
      return false;
    }

    /** Inserts empty blocks until the block is at its farthest index. */
    method InsertBlanks(i: nat, k: nat) returns (changed: bool)
      requires i < |lists| && k < |lists[i]|
      modifies this`lists
      ensures var n := Cached(farthest, old(lists[i][k]));
        && (changed <==> k < n)
        && lists == if k < n then old(lists)[i := Insert(old(lists[i]), k, n - k)] else old(lists)
    {
      changed := false;
      var block, index := lists[i][k], k;
      var n := Cached(farthest, block);
      ghost var was := lists[i];
      assert Insert(was, k, 0) == was;
      while index < n
        invariant k <= index && (index <= n || index == k) && (changed <==> index > k)
        invariant i < |old(lists)| && lists == old(lists)[i := Insert(was, k, index - k)]
      {
        BlankAt(was, k, index - k);
        lists := lists[i := lists[i][..index] + [""] + lists[i][index..]];
        index := index + 1;
        changed := true;
      }
      assert old(lists)[i := was] == old(lists);
    }

    /** _align_matching_blocks. */
    method AlignMatchingBlocks() returns (changed: bool)
      modifies this`lists, this`farthest
      ensures forall b :: b != "" ==> Cached(farthest, b) == Max(old(Cached(farthest, b)), Farthest(old(lists), b))
      ensures farthest == Analysed(old(lists), old(farthest)) && (changed, lists) == Step(old(lists), 0, farthest)
      ensures changed ==> exists i: nat, k: nat :: FirstMove(old(lists), 0, i, k, farthest) && InsertedAt(old(lists), lists, farthest, i, k)
      ensures !changed ==> lists == old(lists) && Settled(lists, farthest)
    {
      Analyse();
      changed := AlignFirst();
      if changed {
        StepMovesFirst(old(lists), 0, farthest);
      }
    }

    /** The first block, in the order of the lists, that can be shunted along. */
    method AlignFirst() returns (changed: bool)
      modifies this`lists
      ensures (changed, lists) == Step(old(lists), 0, farthest)
      ensures !changed ==> Settled(lists, farthest)
    {
      var i := 0;
      while i < |lists|
        invariant 0 <= i <= |lists| && lists == old(lists) && Step(lists, 0, farthest) == Step(lists, i, farthest)
        invariant forall j, k :: 0 <= j < i && PairAt(lists[j], k) ==> k >= Cached(farthest, lists[j][k])
      {
        changed := AlignList(i);
        if changed {
          return true;
        }
        i := i + 1;
      }
      return false;
    }

    /** Aligns until nothing changes: at most as often as there are pairs of neighbours. */
    method AlignAll() returns (rounds: nat)
      modifies this`lists, this`farthest
      ensures (lists, farthest) == Aligned(old(lists), old(farthest))
      ensures |lists| == |old(lists)| && SameFilled(old(lists), lists) && Settled(lists, farthest)
      ensures rounds + TotalPairs(lists) == TotalPairs(old(lists)) + 1
      ensures CacheRight(lists, farthest) <==> forall b :: b != "" ==> old(Cached(farthest, b)) <= Farthest(lists, b)
      ensures CacheNotAhead(old(lists), old(farthest)) ==> CacheRight(lists, farthest)
    {
      AlignedFacts(lists, farthest);
      if CacheNotAhead(lists, farthest) {
        NotAheadRight(lists, farthest);
      }
      rounds := 0;
      var madeChanges := true;
      while madeChanges
        invariant rounds + TotalPairs(lists) == TotalPairs(old(lists)) + if madeChanges then 0 else 1
        invariant if madeChanges then Aligned(lists, farthest) == Aligned(old(lists), old(farthest))
                  else (lists, farthest) == Aligned(old(lists), old(farthest))
        decreases TotalPairs(lists), madeChanges
      {
        ghost var before, cache := lists, farthest;
        madeChanges := AlignMatchingBlocks();
        rounds := rounds + 1;
        if madeChanges {
          InsertionFacts(before, lists, farthest);
        }
      }
    }

    /** One run line: its list comes in under its key, and everything is aligned again. */
    method AddRun(key: Key, blocks: seq<Block>)
      requires Valid()
      modifies this
      ensures Valid() && keys == PlaceKey(old(keys), key)
      ensures Value() == RunLine(old(Value()), key, blocks)
      ensures forall i :: 0 <= i < |lists| ==>
        Filled(lists[i]) == if keys[i] == key then Filled(blocks) else old(if i < |lists| then Filled(lists[i]) else [])
      ensures Settled(lists, farthest)
      ensures CacheNotAhead(PlaceList(old(keys), old(lists), key, blocks), old(farthest)) ==> CacheRight(lists, farthest)
      ensures !old(key in keys) && CacheRight(old(lists), old(farthest)) ==> CacheRight(lists, farthest)
      ensures old(key in keys) && NoRepeats(blocks) && old(Shunted(blocks, lists[KeyIndex(keys, key)], map[]))
          && CacheRight(old(lists), old(farthest))
        ==> CacheRight(lists, farthest)
      ensures maxBlockLen == Max(old(maxBlockLen), |blocks|)
    {
      ghost var oldKeys, oldLists, cache := keys, lists, farthest;
      PutRun(key, blocks);
      maxBlockLen := Max(maxBlockLen, |blocks|);
      var rounds := AlignAll();
      KeepsCache(oldKeys, oldLists, cache, key, blocks);
    }

    /** all_blocks[key] = blocks. */
    method PutRun(key: Key, blocks: seq<Block>)
      requires Valid()
      modifies this`keys, this`lists
      ensures Valid() && keys == PlaceKey(old(keys), key) && lists == PlaceList(old(keys), old(lists), key, blocks)
    {
      var i := 0;
      while i < |keys| && keys[i] != key
        invariant 0 <= i <= |keys| && key !in keys[..i]
      {
        i := i + 1;
      }
      if i < |keys| {
        assert KeyIndex(keys, key) == i;
        lists := lists[i := blocks];
      } else {
        assert keys[..i] == keys;
        keys, lists := keys + [key], lists + [blocks];
      }
    }

    /** Pads the lists that are shorter than the longest output was. */
    method Pad()
      modifies this`lists
      ensures |lists| == |old(lists)| && forall i :: 0 <= i < |lists| ==>
        lists[i] == old(lists)[i] + Blanks(Max(maxBlockLen, |old(lists)[i]|) - |old(lists)[i]|)
    {
      var i := 0;
      while i < |lists|
        invariant 0 <= i <= |lists| == |old(lists)|
        invariant forall j :: 0 <= j < i ==> lists[j] == old(lists)[j] + Blanks(Max(maxBlockLen, |old(lists)[j]|) - |old(lists)[j]|)
        invariant forall j :: i <= j < |lists| ==> lists[j] == old(lists)[j]
      {
        var toPad := maxBlockLen - |lists[i]|;
        lists := lists[i := lists[i] + Blanks(if toPad < 0 then 0 else toPad)];
        i := i + 1;
      }
    }

    /** All run lines, in order. */
    method AlignRuns(runs: Runs)
      requires Valid() && keys == [] && lists == [] && farthest == map[]
      modifies this
      ensures Valid() && Value() == AfterRuns(runs) && LastOutputs(runs, Value()) && (runs != [] ==> Settled(lists, farthest))
      ensures Repeatable(runs) ==> CacheRight(lists, farthest)
    {
      var n := 0;
      assert runs[..0] == [];
      while n < |runs|
        invariant 0 <= n <= |runs| && Valid() && Value() == AfterRuns(runs[..n])
      {
        AddRun(runs[n].0, runs[n].1);
        AfterNext(runs, n);
        n := n + 1;
      }
      assert runs[..n] == runs;
      RunsOutputs(runs);
      if Repeatable(runs) {
        RunsCacheRight(runs);
      }
    }
  }

  lemma BlankAt(blocks: seq<Block>, k: nat, n: nat)
    requires k <= |blocks|
    ensures var b := Insert(blocks, k, n); b[..k + n] + [""] + b[k + n..] == Insert(blocks, k, n + 1)
  {
  }

  // ----- What the result is worth ---------------------------------------------------------------------

  /** At the end, with a cache that is right: a block that directly follows another one is nowhere
      ahead of the farthest place of its first instances. */
  lemma SettledIsAligned(lists: seq<seq<Block>>, cache: map<Block, nat>, i: nat, k: nat)
    requires Settled(lists, cache) && CacheRight(lists, cache) && i < |lists| && PairAt(lists[i], k)
    ensures forall j :: 0 <= j < |lists| && lists[i][k] in lists[j] ==> FirstIndex(lists[j], lists[i][k]) <= k
  {
    forall j | 0 <= j < |lists| && lists[i][k] in lists[j] ensures FirstIndex(lists[j], lists[i][k]) <= k {
      FarthestAtLeast(lists, lists[i][k], j);
    }
  }
}
