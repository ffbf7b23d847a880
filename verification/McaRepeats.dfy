/** What repeated blocks can do: an output that comes again under its key, and a cache that stays ahead. */
module McaRepeats {
  import opened McaBlocks
  import opened McaAlign

  predicate Three(b: Block, y: Block, x: Block) {
    b != "" && y != "" && x != "" && b != y && y != x && b != x
  }

  /** The block b comes twice; an empty block keeps x from being shunted along itself. */
  function Output(b: Block, y: Block, x: Block): seq<Block> { [b, y, b, "", x] }

  function FarB(b: Block): seq<Block> { ["", "", "", b] }

  function FarY(y: Block): seq<Block> { ["", "", y] }

  /** Four run lines; the last has the key and the output of the first. */
  function Again(b: Block, y: Block, x: Block): Runs {
    [("1", Output(b, y, x)), ("2", FarB(b)), ("3", FarY(y)), ("1", Output(b, y, x))]
  }

  // ----- One list, one round ---------------------------------------------------------------------------

  lemma IndexIs(blocks: seq<Block>, b: Block, k: nat)
    requires k < |blocks| && blocks[k] == b && forall j :: 0 <= j < k ==> blocks[j] != b
    ensures IndexIn(blocks, b) == k
  {
  }

  lemma Absent(blocks: seq<Block>, b: Block)
    requires forall j :: 0 <= j < |blocks| ==> blocks[j] != b
    ensures IndexIn(blocks, b) == 0
  {
  }

  /** Where three blocks are first in a list, and how far back a cache has them. */
  ghost predicate At(blocks: seq<Block>, b: Block, y: Block, x: Block, i: nat, j: nat, k: nat) {
    IndexIn(blocks, b) == i && IndexIn(blocks, y) == j && IndexIn(blocks, x) == k
  }

  ghost predicate Level(c: map<Block, nat>, b: Block, y: Block, x: Block, i: nat, j: nat, k: nat) {
    Cached(c, b) == i && Cached(c, y) == j && Cached(c, x) == k
  }

  ghost predicate Farthests(lists: seq<seq<Block>>, b: Block, y: Block, x: Block, i: nat, j: nat, k: nat) {
    Farthest(lists, b) == i && Farthest(lists, y) == j && Farthest(lists, x) == k
  }

  lemma OutputAt(b: Block, y: Block, x: Block, l: seq<Block>)
    requires Three(b, y, x) && l == [b, y, b, "", x]
    ensures At(l, b, y, x, 0, 1, 4)
  {
    IndexIs(l, b, 0);
    IndexIs(l, y, 1);
    IndexIs(l, x, 4);
  }

  lemma FarBAt(b: Block, y: Block, x: Block, l: seq<Block>)
    requires Three(b, y, x) && l == ["", "", "", b]
    ensures At(l, b, y, x, 3, 0, 0)
  {
    IndexIs(l, b, 3);
    Absent(l, y);
    Absent(l, x);
  }

  lemma FarYAt(b: Block, y: Block, x: Block, l: seq<Block>)
    requires Three(b, y, x) && l == ["", "", y]
    ensures At(l, b, y, x, 0, 2, 0)
  {
    Absent(l, b);
    IndexIs(l, y, 2);
    Absent(l, x);
  }

  lemma BMovedAt(b: Block, y: Block, x: Block, l: seq<Block>)
    requires Three(b, y, x) && l == [b, y, "", b, "", x]
    ensures At(l, b, y, x, 0, 1, 5)
  {
    IndexIs(l, b, 0);
    IndexIs(l, y, 1);
    IndexIs(l, x, 5);
  }

  lemma BothMovedAt(b: Block, y: Block, x: Block, l: seq<Block>)
    requires Three(b, y, x) && l == [b, "", y, "", b, "", x]
    ensures At(l, b, y, x, 0, 2, 6)
  {
    IndexIs(l, b, 0);
    IndexIs(l, y, 2);
    IndexIs(l, x, 6);
  }

  lemma YMovedAt(b: Block, y: Block, x: Block, l: seq<Block>)
    requires Three(b, y, x) && l == [b, "", y, b, "", x]
    ensures At(l, b, y, x, 0, 2, 5)
  {
    IndexIs(l, b, 0);
    IndexIs(l, y, 2);
    IndexIs(l, x, 5);
  }

  /** The lists have neighbours in the first one only. */
  ghost predicate FirstOnly(lists: seq<seq<Block>>) {
    lists != [] && forall i, k :: 0 < i < |lists| ==> !PairAt(lists[i], k)
  }

  lemma StepFirst(lists: seq<seq<Block>>, c: map<Block, nat>, k: nat)
    requires lists != [] && k < |lists[0]| && Movable(lists[0], k, c) && forall j :: 0 <= j < k ==> !Movable(lists[0], j, c)
    ensures Step(lists, 0, c) == (true, lists[0 := Insert(lists[0], k, Cached(c, lists[0][k]) - k)])
  {
    assert MoveIn(lists[0], 0, c) == k;
  }

  lemma {:induction false} StepNone(lists: seq<seq<Block>>, i: nat, c: map<Block, nat>)
    requires i <= |lists| && forall j, k :: i <= j < |lists| && 0 <= k < |lists[j]| ==> !Movable(lists[j], k, c)
    ensures Step(lists, i, c) == (false, lists)
    decreases |lists| - i
  {
    if i < |lists| {
      StepNone(lists, i + 1, c);
    }
  }

  /** A round in which nothing moves. */
  lemma RoundEnds(lists: seq<seq<Block>>, cache: map<Block, nat>, c: map<Block, nat>)
    requires c == Analysed(lists, cache) && FirstOnly(lists) && forall k :: 0 <= k < |lists[0]| ==> !Movable(lists[0], k, c)
    ensures Aligned(lists, cache) == (lists, c)
  {
    StepNone(lists, 0, c);
  }

  /** A round in which a block of the first list moves. */
  lemma RoundMoves(lists: seq<seq<Block>>, cache: map<Block, nat>, c: map<Block, nat>, k: nat, next: seq<seq<Block>>)
    requires c == Analysed(lists, cache) && lists != [] && k < |lists[0]| && Movable(lists[0], k, c)
    requires forall j :: 0 <= j < k ==> !Movable(lists[0], j, c)
    requires next == lists[0 := Insert(lists[0], k, Cached(c, lists[0][k]) - k)]
    ensures Aligned(lists, cache) == Aligned(next, c)
  {
    StepFirst(lists, c, k);
  }

  lemma LevelsOf(lists: seq<seq<Block>>, cache: map<Block, nat>, c: map<Block, nat>, b: Block, y: Block, x: Block,
                 i: nat, j: nat, k: nat, i': nat, j': nat, k': nat)
    requires Three(b, y, x) && c == Analysed(lists, cache)
    requires Level(cache, b, y, x, i, j, k) && Farthests(lists, b, y, x, i', j', k')
    ensures Level(c, b, y, x, Max(i, i'), Max(j, j'), Max(k, k'))
  {
    AnalysedCached(lists, cache, b);
    AnalysedCached(lists, cache, y);
    AnalysedCached(lists, cache, x);
  }

  lemma FarthestOne(p: seq<Block>, b: Block)
    ensures Farthest([p], b) == IndexIn(p, b)
  {
    assert [p][..0] == [];
  }

  lemma FarthestTwo(p: seq<Block>, q: seq<Block>, b: Block)
    ensures Farthest([p, q], b) == Max(IndexIn(p, b), IndexIn(q, b))
  {
    assert [p, q][..1] == [p];
    FarthestOne(p, b);
  }

  lemma FarthestThree(p: seq<Block>, q: seq<Block>, r: seq<Block>, b: Block)
    ensures Farthest([p, q, r], b) == Max(Max(IndexIn(p, b), IndexIn(q, b)), IndexIn(r, b))
  {
    assert [p, q, r][..2] == [p, q];
    FarthestTwo(p, q, b);
  }

  /** With the second list, and with the third. */
  lemma FarthestsTwo(first: seq<Block>, second: seq<Block>, b: Block, y: Block, x: Block, i: nat, j: nat, k: nat)
    requires Three(b, y, x) && At(first, b, y, x, i, j, k) && second == ["", "", "", b]
    ensures Farthests([first, second], b, y, x, Max(i, 3), j, k)
  {
    FarBAt(b, y, x, second);
    FarthestTwo(first, second, b);
    FarthestTwo(first, second, y);
    FarthestTwo(first, second, x);
  }

  lemma FarthestsThree(first: seq<Block>, second: seq<Block>, third: seq<Block>, b: Block, y: Block, x: Block, i: nat, j: nat, k: nat)
    requires Three(b, y, x) && At(first, b, y, x, i, j, k) && second == ["", "", "", b] && third == ["", "", y]
    ensures Farthests([first, second, third], b, y, x, Max(i, 3), Max(j, 2), k)
  {
    FarBAt(b, y, x, second);
    FarYAt(b, y, x, third);
    FarthestThree(first, second, third, b);
    FarthestThree(first, second, third, y);
    FarthestThree(first, second, third, x);
  }

  lemma NoNeighbours(l: seq<Block>)
    requires forall k :: 0 <= k < |l| - 1 ==> l[k] == ""
    ensures forall k :: !PairAt(l, k)
  {
  }

  // ----- The four run lines ----------------------------------------------------------------------------

  lemma LineOne(b: Block, y: Block, x: Block, l: seq<Block>, cache: map<Block, nat>)
    requires Three(b, y, x) && l == [b, y, b, "", x] && Level(cache, b, y, x, 0, 0, 0)
    ensures var (after, c) := Aligned([l], cache); after == [l] && Level(c, b, y, x, 0, 1, 4)
  {
    OutputAt(b, y, x, l);
    FarthestOne(l, b);
    FarthestOne(l, y);
    FarthestOne(l, x);
    var c := Analysed([l], cache);
    LevelsOf([l], cache, c, b, y, x, 0, 0, 0, 0, 1, 4);
    RoundEnds([l], cache, c);
  }

  /** The second b is shunted to where b is in the second list, and x goes with it. */
  lemma LineTwo(b: Block, y: Block, x: Block, l: seq<Block>, moved: seq<Block>, second: seq<Block>, cache: map<Block, nat>)
    requires Three(b, y, x) && l == [b, y, b, "", x] && moved == [b, y, "", b, "", x] && second == ["", "", "", b]
    requires Level(cache, b, y, x, 0, 1, 4)
    ensures var (after, c) := Aligned([l, second], cache); after == [moved, second] && Level(c, b, y, x, 3, 1, 5)
  {
    var lists, next := [l, second], [moved, second];
    OutputAt(b, y, x, l);
    FarthestsTwo(l, second, b, y, x, 0, 1, 4);
    var c := Analysed(lists, cache);
    LevelsOf(lists, cache, c, b, y, x, 0, 1, 4, 3, 1, 4);
    SecondMoves(b, y, x, l, moved, lists, next, cache, c);
    EndsTwo(b, y, x, moved, second, c);
  }

  lemma SecondMoves(b: Block, y: Block, x: Block, l: seq<Block>, moved: seq<Block>, lists: seq<seq<Block>>, next: seq<seq<Block>>,
                    cache: map<Block, nat>, c: map<Block, nat>)
    requires Three(b, y, x) && l == [b, y, b, "", x] && moved == [b, y, "", b, "", x] && lists != [] && lists[0] == l
    requires next == lists[0 := moved] && c == Analysed(lists, cache) && Level(c, b, y, x, 3, 1, 4)
    ensures Aligned(lists, cache) == Aligned(next, c)
  {
    InsertOne(l, 2, moved);
    RoundMoves(lists, cache, c, 2, next);
  }

  lemma EndsTwo(b: Block, y: Block, x: Block, moved: seq<Block>, second: seq<Block>, c: map<Block, nat>)
    requires Three(b, y, x) && moved == [b, y, "", b, "", x] && second == ["", "", "", b] && Level(c, b, y, x, 3, 1, 4)
    ensures var (after, c') := Aligned([moved, second], c); after == [moved, second] && Level(c', b, y, x, 3, 1, 5)
  {
    BMovedAt(b, y, x, moved);
    FarthestsTwo(moved, second, b, y, x, 0, 1, 5);
    var c' := Analysed([moved, second], c);
    LevelsOf([moved, second], c, c', b, y, x, 3, 1, 4, 3, 1, 5);
    NoNeighbours(second);
    RoundEnds([moved, second], c, c');
  }

  lemma InsertOne(l: seq<Block>, k: nat, moved: seq<Block>)
    requires k <= |l| && moved == l[..k] + [""] + l[k..]
    ensures Insert(l, k, 1) == moved
  {
    assert Blanks(1) == [""] + Blanks(0);
  }

  /** The block y is shunted from the second place to the third. */
  lemma YMoves(b: Block, y: Block, x: Block, l: seq<Block>, moved: seq<Block>, lists: seq<seq<Block>>, next: seq<seq<Block>>,
               cache: map<Block, nat>, c: map<Block, nat>)
    requires Three(b, y, x) && |l| > 2 && l[0] == b && l[1] == y && moved == l[..1] + [""] + l[1..] && lists != [] && lists[0] == l
    requires next == lists[0 := moved] && c == Analysed(lists, cache) && Cached(c, y) == 2
    ensures Aligned(lists, cache) == Aligned(next, c)
  {
    InsertOne(l, 1, moved);
    RoundMoves(lists, cache, c, 1, next);
  }

  /** Now y is shunted, and the second b is farther back than where it was shunted to. */
  lemma LineThree(b: Block, y: Block, x: Block, l: seq<Block>, moved: seq<Block>, second: seq<Block>, third: seq<Block>, cache: map<Block, nat>)
    requires Three(b, y, x) && l == [b, y, "", b, "", x] && moved == [b, "", y, "", b, "", x]
    requires second == ["", "", "", b] && third == ["", "", y] && Level(cache, b, y, x, 3, 1, 5)
    ensures var (after, c) := Aligned([l, second, third], cache); after == [moved, second, third] && Level(c, b, y, x, 3, 2, 6)
  {
    var lists, next := [l, second, third], [moved, second, third];
    BMovedAt(b, y, x, l);
    FarthestsThree(l, second, third, b, y, x, 0, 1, 5);
    var c := Analysed(lists, cache);
    LevelsOf(lists, cache, c, b, y, x, 3, 1, 5, 3, 2, 5);
    YMoves(b, y, x, l, moved, lists, next, cache, c);
    BothMovedAt(b, y, x, moved);
    NoneMovesBoth(b, y, x, moved);
    EndsThree(b, y, x, moved, second, third, c, 5, 6);
  }

  lemma NoneMovesBoth(b: Block, y: Block, x: Block, l: seq<Block>)
    requires l == [b, "", y, "", b, "", x]
    ensures forall k :: !PairAt(l, k)
  {
  }

  lemma NoneMovesY(b: Block, y: Block, x: Block, l: seq<Block>)
    requires Three(b, y, x) && l == [b, "", y, b, "", x]
    ensures forall k :: PairAt(l, k) ==> k == 3 && l[k] == b
  {
  }

  lemma EndsThree(b: Block, y: Block, x: Block, moved: seq<Block>, second: seq<Block>, third: seq<Block>, c: map<Block, nat>, k: nat, k': nat)
    requires Three(b, y, x) && second == ["", "", "", b] && third == ["", "", y] && At(moved, b, y, x, 0, 2, k')
    requires Level(c, b, y, x, 3, 2, k) && forall j :: PairAt(moved, j) ==> j == 3 && moved[j] == b
    ensures var (after, c') := Aligned([moved, second, third], c); after == [moved, second, third] && Level(c', b, y, x, 3, 2, Max(k, k'))
  {
    var lists := [moved, second, third];
    FarthestsThree(moved, second, third, b, y, x, 0, 2, k');
    var c' := Analysed(lists, c);
    LevelsOf(lists, c, c', b, y, x, 3, 2, k, 3, 2, k');
    NoNeighbours(second);
    NoNeighbours(third);
    RoundEnds(lists, c, c');
  }

  /** From the start again, y is shunted first, and then the second b is where it has to be: x does
      not get back to where it was. */
  lemma LineFour(b: Block, y: Block, x: Block, l: seq<Block>, moved: seq<Block>, second: seq<Block>, third: seq<Block>, cache: map<Block, nat>)
    requires Three(b, y, x) && l == [b, y, b, "", x] && moved == [b, "", y, b, "", x]
    requires second == ["", "", "", b] && third == ["", "", y] && Level(cache, b, y, x, 3, 2, 6)
    ensures var (after, c) := Aligned([l, second, third], cache); after == [moved, second, third] && Level(c, b, y, x, 3, 2, 6)
  {
    var lists, next := [l, second, third], [moved, second, third];
    OutputAt(b, y, x, l);
    FarthestsThree(l, second, third, b, y, x, 0, 1, 4);
    var c := Analysed(lists, cache);
    LevelsOf(lists, cache, c, b, y, x, 3, 2, 6, 3, 2, 4);
    YMoves(b, y, x, l, moved, lists, next, cache, c);
    YMovedAt(b, y, x, moved);
    NoneMovesY(b, y, x, moved);
    EndsThree(b, y, x, moved, second, third, c, 6, 5);
  }

  /** The key that comes twice has the same output both times, and yet the cache is ahead at the
      end: a block comes twice in that output. */
  lemma RepeatsLeaveCacheAhead(b: Block, y: Block, x: Block)
    requires Three(b, y, x)
    ensures var runs, s := Again(b, y, x), AfterRuns(Again(b, y, x));
      && (forall i, j :: 0 <= i < j < |runs| && runs[i].0 == runs[j].0 ==> runs[i].1 == runs[j].1)
      && Cached(s.cache, x) == 6 && Farthest(s.lists, x) == 5 && !CacheRight(s.lists, s.cache)
  {
    FourRuns(b, y, x, Output(b, y, x), FarB(b), FarY(y), Again(b, y, x));
  }

  lemma FourRuns(b: Block, y: Block, x: Block, l: seq<Block>, second: seq<Block>, third: seq<Block>, runs: Runs)
    requires Three(b, y, x) && l == [b, y, b, "", x] && second == ["", "", "", b] && third == ["", "", y]
    requires runs == [("1", l), ("2", second), ("3", third), ("1", l)]
    ensures Cached(AfterRuns(runs).cache, x) == 6 && Farthest(AfterRuns(runs).lists, x) == 5
  {
    var s1, s2, s3, s4 := AfterRuns(runs[..1]), AfterRuns(runs[..2]), AfterRuns(runs[..3]), AfterRuns(runs[..4]);
    FirstRun(b, y, x, l, runs, s1);
    AfterNext(runs, 1);
    SecondRun(b, y, x, l, second, s1, s2);
    AfterNext(runs, 2);
    ThirdRun(b, y, x, second, third, s2, s3);
    AfterNext(runs, 3);
    FourthRun(b, y, x, l, second, third, s3, s4);
    assert runs[..4] == runs;
  }

  lemma FirstRun(b: Block, y: Block, x: Block, l: seq<Block>, runs: Runs, s: State)
    requires Three(b, y, x) && l == [b, y, b, "", x] && runs != [] && runs[0] == ("1", l) && s == AfterRuns(runs[..1])
    ensures s.keys == ["1"] && s.lists == [l] && Level(s.cache, b, y, x, 0, 1, 4)
  {
    AfterNext(runs, 0);
    LineOne(b, y, x, l, map[]);
    assert runs[..0] == [] && [] + [l] == [l];
  }

  lemma SecondRun(b: Block, y: Block, x: Block, l: seq<Block>, second: seq<Block>, s: State, t: State)
    requires Three(b, y, x) && l == [b, y, b, "", x] && second == ["", "", "", b]
    requires s.keys == ["1"] && s.lists == [l] && Level(s.cache, b, y, x, 0, 1, 4) && t == RunLine(s, "2", second)
    ensures t.keys == ["1", "2"] && t.lists == [[b, y, "", b, "", x], second] && Level(t.cache, b, y, x, 3, 1, 5)
  {
    assert s.lists + [second] == [l, second];
    LineTwo(b, y, x, l, [b, y, "", b, "", x], second, s.cache);
  }

  lemma ThirdRun(b: Block, y: Block, x: Block, second: seq<Block>, third: seq<Block>, s: State, t: State)
    requires Three(b, y, x) && second == ["", "", "", b] && third == ["", "", y]
    requires s.keys == ["1", "2"] && s.lists == [[b, y, "", b, "", x], second] && Level(s.cache, b, y, x, 3, 1, 5)
    requires t == RunLine(s, "3", third)
    ensures t.keys == ["1", "2", "3"] && t.lists == [[b, "", y, "", b, "", x], second, third] && Level(t.cache, b, y, x, 3, 2, 6)
  {
    assert s.lists + [third] == [s.lists[0], second, third];
    LineThree(b, y, x, s.lists[0], [b, "", y, "", b, "", x], second, third, s.cache);
  }

  lemma FourthRun(b: Block, y: Block, x: Block, l: seq<Block>, second: seq<Block>, third: seq<Block>, s: State, t: State)
    requires Three(b, y, x) && l == [b, y, b, "", x] && second == ["", "", "", b] && third == ["", "", y]
    requires s.keys == ["1", "2", "3"] && s.lists == [[b, "", y, "", b, "", x], second, third] && Level(s.cache, b, y, x, 3, 2, 6)
    requires t == RunLine(s, "1", l)
    ensures Cached(t.cache, x) == 6 && Farthest(t.lists, x) == 5
  {
    assert KeyIndex(s.keys, "1") == 0 && s.lists[0 := l] == [l, second, third];
    var moved := [b, "", y, b, "", x];
    LineFour(b, y, x, l, moved, second, third, s.cache);
    YMovedAt(b, y, x, moved);
    FarthestsThree(moved, second, third, b, y, x, 0, 2, 5);
  }
}
