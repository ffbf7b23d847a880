/** Lists of blocks of output, empty blocks put between them, and one round of aligning as a
    function. */
module McaBlocks {
  type Key = string
  type Block = string

  // ----- Lists of blocks ---------------------------------------------------------------------

  /** blocks.index(b). */
  function FirstIndex(blocks: seq<Block>, b: Block): (k: nat)
    requires b in blocks
    ensures k < |blocks| && blocks[k] == b && forall j :: 0 <= j < k ==> blocks[j] != b
  {
    if blocks[0] == b then 0 else 1 + FirstIndex(blocks[1..], b)
  }

  /** The blocks that are not empty, in order. */
  function Filled(blocks: seq<Block>): seq<Block> {
    if blocks == [] then []
    else if blocks[0] == "" then Filled(blocks[1..])
    else [blocks[0]] + Filled(blocks[1..])
  }

  predicate PairAt(blocks: seq<Block>, k: int) {
    0 < k < |blocks| && blocks[k - 1] != "" && blocks[k] != ""
  }

  /** How often a block directly follows another one. */
  function Pairs(blocks: seq<Block>): nat {
    if |blocks| < 2 then 0 else (if blocks[0] != "" && blocks[1] != "" then 1 else 0) + Pairs(blocks[1..])
  }

  function Blanks(n: nat): (r: seq<Block>)
    ensures |r| == n && forall k :: 0 <= k < n ==> r[k] == ""
  {
    if n == 0 then [] else [""] + Blanks(n - 1)
  }

  function Insert(blocks: seq<Block>, k: nat, n: nat): seq<Block>
    requires k <= |blocks|
  {
    blocks[..k] + Blanks(n) + blocks[k..]
  }

  lemma {:induction false} FilledApp(a: seq<Block>, b: seq<Block>)
    ensures Filled(a + b) == Filled(a) + Filled(b)
  {
    if a == [] {
      assert a + b == b;
    } else {
      FilledApp(a[1..], b);
      assert (a + b)[1..] == a[1..] + b;
      FilledCons(a[0], a[1..]);
      FilledCons(a[0], a[1..] + b);
      assert [a[0]] + a[1..] == a && [a[0]] + (a[1..] + b) == a + b;
    }
  }

  lemma FilledCons(x: Block, rest: seq<Block>)
    ensures Filled([x] + rest) == (if x == "" then [] else [x]) + Filled(rest)
  {
    assert ([x] + rest)[1..] == rest;
    assert [] + Filled(rest) == Filled(rest);
  }

  lemma {:induction false} FilledBlanks(n: nat)
    ensures Filled(Blanks(n)) == []
  {
    if n > 0 {
      FilledBlanks(n - 1);
      assert Blanks(n)[1..] == Blanks(n - 1);
    }
  }

  lemma FilledBetween(a: seq<Block>, m: seq<Block>, b: seq<Block>)
    requires Filled(m) == []
    ensures Filled(a + m + b) == Filled(a + b)
  {
    FilledApp(a, m);
    FilledApp(a + m, b);
    FilledApp(a, b);
    assert Filled(a) + [] == Filled(a);
  }

  lemma FilledInsert(blocks: seq<Block>, k: nat, n: nat)
    requires k <= |blocks|
    ensures Filled(Insert(blocks, k, n)) == Filled(blocks)
  {
    assert blocks == blocks[..k] + blocks[k..];
    FilledAround(blocks[..k], n, blocks[k..]);
  }

  lemma FilledAround(a: seq<Block>, n: nat, b: seq<Block>)
    ensures Filled(a + Blanks(n) + b) == Filled(a + b)
  {
    FilledBlanks(n);
    FilledBetween(a, Blanks(n), b);
  }

  lemma {:induction false} PairsApp(a: seq<Block>, b: seq<Block>)
    ensures Pairs(a + b) == Pairs(a) + Pairs(b) + if a != [] && b != [] && a[|a| - 1] != "" && b[0] != "" then 1 else 0
  {
    if a == [] {
      assert a + b == b;
    } else if |a| == 1 {
      assert (a + b)[1..] == b;
    } else {
      PairsApp(a[1..], b);
      assert (a + b)[1..] == a[1..] + b;
    }
  }

  lemma {:induction false} PairsBlanks(n: nat)
    ensures Pairs(Blanks(n)) == 0
  {
    if n > 1 {
      PairsBlanks(n - 1);
      assert Blanks(n)[1..] == Blanks(n - 1);
    }
  }

  /** Empty blocks between two neighbours take away exactly that pair. */
  lemma PairsInsert(blocks: seq<Block>, k: nat, n: nat)
    requires PairAt(blocks, k) && n > 0
    ensures Pairs(Insert(blocks, k, n)) == Pairs(blocks) - 1
  {
    PairsApp(blocks[..k] + Blanks(n), blocks[k..]);
    PairsApp(blocks[..k], Blanks(n));
    PairsBlanks(n);
    PairsApp(blocks[..k], blocks[k..]);
    assert blocks[..k] + blocks[k..] == blocks;
  }

  /** Blocks only move back. */
  lemma InsertMoves(blocks: seq<Block>, k: nat, n: nat, b: Block)
    requires k <= |blocks| && b != ""
    ensures b in Insert(blocks, k, n) <==> b in blocks
    ensures b in blocks ==> FirstIndex(blocks, b) <= FirstIndex(Insert(blocks, k, n), b)
  {
    var after := Insert(blocks, k, n);
    forall j | 0 <= j < |after| && after[j] == b ensures exists i :: 0 <= i <= j && i < |blocks| && blocks[i] == b {
      if j < k {
        assert blocks[j] == b;
      } else {
        assert blocks[j - n] == b;
      }
    }
    if i :| 0 <= i < |blocks| && blocks[i] == b {
      assert i < k ==> after[i] == b;
      assert i >= k ==> after[i + n] == b;
    }
  }

  // ----- The farthest index ---------------------------------------------------------------------

  function Max(a: nat, b: nat): nat {
    if a > b then a else b
  }

  function IndexIn(blocks: seq<Block>, b: Block): nat {
    if b in blocks then FirstIndex(blocks, b) else 0
  }

  /** The highest index of the first instance of a block in any of the lists. */
  function Farthest(lists: seq<seq<Block>>, b: Block): nat {
    if lists == [] then 0 else Max(Farthest(lists[..|lists| - 1], b), IndexIn(lists[|lists| - 1], b))
  }

  /** A defaultdict(int). */
  function Cached(cache: map<Block, nat>, b: Block): nat {
    if b in cache then cache[b] else 0
  }

  lemma {:induction false} FarthestAtLeast(lists: seq<seq<Block>>, b: Block, k: nat)
    requires k < |lists|
    ensures IndexIn(lists[k], b) <= Farthest(lists, b)
  {
    if k < |lists| - 1 {
      FarthestAtLeast(lists[..|lists| - 1], b, k);
    }
  }

  /** The farthest index is the highest of the indices: none is higher, and if it is not 0 one of
      the lists has the first instance there. */
  lemma {:induction false} FarthestIsHighest(lists: seq<seq<Block>>, b: Block)
    ensures forall k :: 0 <= k < |lists| && b in lists[k] ==> FirstIndex(lists[k], b) <= Farthest(lists, b)
    ensures Farthest(lists, b) > 0 ==>
      exists k :: 0 <= k < |lists| && b in lists[k] && FirstIndex(lists[k], b) == Farthest(lists, b)
  {
    if lists != [] {
      var n := |lists| - 1;
      FarthestIsHighest(lists[..n], b);
      forall k | 0 <= k < n && b in lists[k] ensures FirstIndex(lists[k], b) <= Farthest(lists, b) {
        assert lists[..n][k] == lists[k];
      }
      if b in lists[n] && FirstIndex(lists[n], b) == Farthest(lists, b) {
      } else if Farthest(lists, b) > 0 {
        var k :| 0 <= k < n && b in lists[..n][k] && FirstIndex(lists[..n][k], b) == Farthest(lists, b);
        assert lists[k] == lists[..n][k];
      }
    }
  }

  /** Where no list's index goes down, the farthest index does not. */
  lemma {:induction false} FarthestGrows(lists: seq<seq<Block>>, lists': seq<seq<Block>>, b: Block)
    requires |lists| <= |lists'| && forall k :: 0 <= k < |lists| ==> IndexIn(lists[k], b) <= IndexIn(lists'[k], b)
    ensures Farthest(lists, b) <= Farthest(lists', b)
  {
    if lists != [] {
      FarthestGrows(lists[..|lists| - 1], lists', b);
      FarthestAtLeast(lists', b, |lists| - 1);
    }
  }

  /** Every block that directly follows another is at or behind its cached index. */
  ghost predicate Settled(lists: seq<seq<Block>>, cache: map<Block, nat>) {
    forall i, k :: 0 <= i < |lists| && PairAt(lists[i], k) ==> k >= Cached(cache, lists[i][k])
  }

  function TotalPairs(lists: seq<seq<Block>>): nat {
    if lists == [] then 0 else TotalPairs(lists[..|lists| - 1]) + Pairs(lists[|lists| - 1])
  }

  lemma {:induction false} TotalPairsUpdate(lists: seq<seq<Block>>, i: nat, blocks: seq<Block>)
    requires i < |lists|
    ensures TotalPairs(lists[i := blocks]) == TotalPairs(lists) - Pairs(lists[i]) + Pairs(blocks)
  {
    var n := |lists| - 1;
    if i < n {
      TotalPairsUpdate(lists[..n], i, blocks);
      assert lists[i := blocks][..n] == lists[..n][i := blocks];
    } else {
      assert lists[i := blocks][..n] == lists[..n];
    }
  }

  ghost predicate SameFilled(a: seq<seq<Block>>, b: seq<seq<Block>>) {
    |a| == |b| && forall i :: 0 <= i < |a| ==> Filled(a[i]) == Filled(b[i])
  }

  /** One list has got empty blocks between two neighbours; the second of them is where it belongs. */
  ghost predicate OneInsertion(before: seq<seq<Block>>, after: seq<seq<Block>>, cache: map<Block, nat>) {
    exists i: nat, k: nat :: i < |before| && InsertedAt(before, after, cache, i, k)
  }

  ghost predicate InsertedAt(before: seq<seq<Block>>, after: seq<seq<Block>>, cache: map<Block, nat>, i: nat, k: nat)
    requires i < |before|
  {
    PairAt(before[i], k) && var n := Cached(cache, before[i][k]);
    n > k && after == before[i := Insert(before[i], k, n - k)]
  }

  /** After the analysis the cache has the farthest index of every block if it had no more before. */
  ghost predicate CacheRight(lists: seq<seq<Block>>, cache: map<Block, nat>) {
    forall b :: b != "" ==> Cached(cache, b) == Farthest(lists, b)
  }

  ghost predicate CacheNotAhead(lists: seq<seq<Block>>, cache: map<Block, nat>) {
    forall b :: b != "" ==> Cached(cache, b) <= Farthest(lists, b)
  }

  lemma InsertionFacts(before: seq<seq<Block>>, after: seq<seq<Block>>, cache: map<Block, nat>)
    requires OneInsertion(before, after, cache)
    ensures |after| == |before| && SameFilled(before, after) && TotalPairs(after) == TotalPairs(before) - 1
    ensures CacheNotAhead(before, cache) ==> CacheNotAhead(after, cache)
  {
    var i: nat, k: nat :| i < |before| && InsertedAt(before, after, cache, i, k);
    var n := Cached(cache, before[i][k]) - k;
    InsertionFilled(before, i, k, n);
    InsertionPairs(before, i, k, n);
    forall b | b != "" ensures Farthest(before, b) <= Farthest(after, b) {
      InsertionFarther(before, i, k, n, b);
    }
  }

  lemma InsertionFilled(before: seq<seq<Block>>, i: nat, k: nat, n: nat)
    requires i < |before| && k <= |before[i]|
    ensures SameFilled(before, before[i := Insert(before[i], k, n)])
  {
    FilledInsert(before[i], k, n);
  }

  lemma InsertionPairs(before: seq<seq<Block>>, i: nat, k: nat, n: nat)
    requires i < |before| && PairAt(before[i], k) && n > 0
    ensures TotalPairs(before[i := Insert(before[i], k, n)]) == TotalPairs(before) - 1
  {
    PairsInsert(before[i], k, n);
    TotalPairsUpdate(before, i, Insert(before[i], k, n));
  }

  lemma InsertionFarther(before: seq<seq<Block>>, i: nat, k: nat, n: nat, b: Block)
    requires i < |before| && k <= |before[i]| && b != ""
    ensures Farthest(before, b) <= Farthest(before[i := Insert(before[i], k, n)], b)
  {
    InsertMoves(before[i], k, n, b);
    FarthestGrows(before, before[i := Insert(before[i], k, n)], b);
  }

  // ----- One round as a function -------------------------------------------------------------------

  /** The cache after a list has been looked at from its k-th block on. */
  function AnalysedList(blocks: seq<Block>, k: nat, cache: map<Block, nat>): map<Block, nat>
    requires k <= |blocks|
    decreases |blocks| - k
  {
    if k == |blocks| then cache
    else
      var b := blocks[k];
      var raised := b != "" && (FirstIndex(blocks, b) > Cached(cache, b));
      AnalysedList(blocks, k + 1, if raised then cache[b := FirstIndex(blocks, b)] else cache)
  }

  function Analysed(lists: seq<seq<Block>>, cache: map<Block, nat>): map<Block, nat> {
    if lists == [] then cache else Analysed(lists[1..], AnalysedList(lists[0], 0, cache))
  }

  predicate Movable(blocks: seq<Block>, k: nat, cache: map<Block, nat>)
    requires k < |blocks|
  {
    PairAt(blocks, k) && k < Cached(cache, blocks[k])
  }

  /** The first block from the k-th on that can be shunted along; the length if there is none. */
  function MoveIn(blocks: seq<Block>, k: nat, cache: map<Block, nat>): (r: nat)
    requires k <= |blocks|
    ensures k <= r <= |blocks| && (r < |blocks| ==> Movable(blocks, r, cache))
    ensures forall j :: k <= j < r ==> !Movable(blocks, j, cache)
    decreases |blocks| - k
  {
    if k == |blocks| || Movable(blocks, k, cache) then k else MoveIn(blocks, k + 1, cache)
  }

  function Shunt(lists: seq<seq<Block>>, i: nat, k: nat, cache: map<Block, nat>): seq<seq<Block>>
    requires i < |lists| && k < |lists[i]| && k < Cached(cache, lists[i][k])
  {
    lists[i := Insert(lists[i], k, Cached(cache, lists[i][k]) - k)]
  }

  /** The lists after the first move in the lists from the i-th on; unchanged if there is none. */
  function Step(lists: seq<seq<Block>>, i: nat, cache: map<Block, nat>): (r: (bool, seq<seq<Block>>))
    requires i <= |lists|
    ensures r.0 ==> OneInsertion(lists, r.1, cache)
    ensures !r.0 ==> r.1 == lists
    decreases |lists| - i
  {
    if i == |lists| then (false, lists)
    else
      var k := MoveIn(lists[i], 0, cache);
      if k < |lists[i]| then
        assert InsertedAt(lists, Shunt(lists, i, k, cache), cache, i, k);
        (true, Shunt(lists, i, k, cache))
      else Step(lists, i + 1, cache)
  }

  /** Lists and cache when nothing changes any more. */
  function Aligned(lists: seq<seq<Block>>, cache: map<Block, nat>): (seq<seq<Block>>, map<Block, nat>)
    decreases TotalPairs(lists)
  {
    var c := Analysed(lists, cache);
    var (moved, next) := Step(lists, 0, c);
    if moved then
      InsertionFacts(lists, next, c);
      Aligned(next, c)
    else (lists, c)
  }
}
