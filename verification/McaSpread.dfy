/** A list of blocks that only ever gets empty blocks between neighbours: where each block of the
    output has got to, and why a list that starts again catches up. */
module McaSpread {
  import opened McaBlocks

  // ----- Gaps -------------------------------------------------------------------------------------

  /** The list with gaps[p] empty blocks before the p-th block. */
  function Spread(raw: seq<Block>, gaps: seq<nat>): seq<Block>
    requires |gaps| == |raw|
  {
    if raw == [] then []
    else
      var n := |raw| - 1;
      Spread(raw[..n], gaps[..n]) + Blanks(gaps[n]) + [raw[n]]
  }

  /** Where the p-th block is. */
  function Place(gaps: seq<nat>, p: nat): nat
    requires p < |gaps|
  {
    gaps[p] + if p == 0 then 0 else Place(gaps, p - 1) + 1
  }

  /** There are gaps only between neighbours, and behind each gap is a block that has been shunted
      at least to its floor. */
  ghost predicate GapOk(raw: seq<Block>, gaps: seq<nat>, floor: map<Block, nat>, p: nat)
    requires |gaps| == |raw| && p < |raw|
  {
    gaps[p] > 0 ==> p > 0 && raw[p - 1] != "" && raw[p] != "" && Place(gaps, p) >= Cached(floor, raw[p])
  }

  ghost predicate GapsOk(raw: seq<Block>, gaps: seq<nat>, floor: map<Block, nat>) {
    |gaps| == |raw| && forall p {:trigger GapOk(raw, gaps, floor, p)} :: 0 <= p < |raw| ==> GapOk(raw, gaps, floor, p)
  }

  /** The list is the output, shunted along. */
  ghost predicate Shunted(raw: seq<Block>, blocks: seq<Block>, floor: map<Block, nat>) {
    exists gaps :: GapsOk(raw, gaps, floor) && blocks == Spread(raw, gaps)
  }

  lemma {:induction false} PlacePrefix(gaps: seq<nat>, n: nat, p: nat)
    requires p < n <= |gaps|
    ensures Place(gaps[..n], p) == Place(gaps, p)
  {
    if p > 0 {
      PlacePrefix(gaps, n, p - 1);
    }
  }

  lemma {:induction false} PlacesRise(gaps: seq<nat>, p: nat, q: nat)
    requires p < q < |gaps|
    ensures Place(gaps, p) < Place(gaps, q)
  {
    if p < q - 1 {
      PlacesRise(gaps, p, q - 1);
    }
  }

  lemma {:induction false} SpreadLength(raw: seq<Block>, gaps: seq<nat>)
    requires |gaps| == |raw|
    ensures |Spread(raw, gaps)| == if raw == [] then 0 else Place(gaps, |raw| - 1) + 1
    decreases |raw|
  {
    if raw != [] {
      var n := |raw| - 1;
      SpreadLength(raw[..n], gaps[..n]);
      if n > 0 {
        PlacePrefix(gaps, n, n - 1);
      }
    }
  }

  lemma {:induction false} SpreadAt(raw: seq<Block>, gaps: seq<nat>, p: nat)
    requires |gaps| == |raw| && p < |raw|
    ensures Place(gaps, p) < |Spread(raw, gaps)| && Spread(raw, gaps)[Place(gaps, p)] == raw[p]
    decreases |raw|
  {
    var n := |raw| - 1;
    SpreadLength(raw, gaps);
    if p < n {
      SpreadAt(raw[..n], gaps[..n], p);
      PlacePrefix(gaps, n, p);
    }
  }

  /** Every block that is not empty is one of the output's. */
  lemma {:induction false} SpreadFrom(raw: seq<Block>, gaps: seq<nat>, k: nat) returns (p: nat)
    requires |gaps| == |raw| && k < |Spread(raw, gaps)| && Spread(raw, gaps)[k] != ""
    ensures p < |raw| && Place(gaps, p) == k && raw[p] == Spread(raw, gaps)[k]
    decreases |raw|
  {
    var n := |raw| - 1;
    var before := Spread(raw[..n], gaps[..n]);
    SpreadLength(raw, gaps);
    if k < |before| {
      p := SpreadFrom(raw[..n], gaps[..n], k);
      PlacePrefix(gaps, n, p);
    } else {
      p := n;
      if k < |before| + gaps[n] {
        assert Spread(raw, gaps)[k] == Blanks(gaps[n])[k - |before|];
      }
    }
  }

  /** Directly before a block with a gap is an empty one. */
  lemma GapBefore(raw: seq<Block>, gaps: seq<nat>, p: nat)
    requires |gaps| == |raw| && p < |raw| && gaps[p] > 0
    ensures 0 < Place(gaps, p) <= |Spread(raw, gaps)| && Spread(raw, gaps)[Place(gaps, p) - 1] == ""
  {
    SpreadAt(raw, gaps, p);
    var k := Place(gaps, p) - 1;
    if Spread(raw, gaps)[k] != "" {
      var q := SpreadFrom(raw, gaps, k);
      if q < p {
        if q < p - 1 {
          PlacesRise(gaps, q, p - 1);
        }
      } else if p < q {
        PlacesRise(gaps, p, q);
      }
    }
  }

  // ----- One insertion -----------------------------------------------------------------------------

  lemma {:induction false} PlaceWider(gaps: seq<nat>, p: nat, n: nat, q: nat)
    requires p < |gaps| && q < |gaps| && gaps[p] == 0
    ensures Place(gaps[p := n], q) == Place(gaps, q) + if q >= p then n else 0
  {
    if q > 0 {
      PlaceWider(gaps, p, n, q - 1);
    }
  }

  lemma {:induction false} SpreadWider(raw: seq<Block>, gaps: seq<nat>, p: nat, n: nat)
    requires |gaps| == |raw| && p < |raw| && gaps[p] == 0
    ensures Place(gaps, p) <= |Spread(raw, gaps)|
    ensures Spread(raw, gaps[p := n]) == Insert(Spread(raw, gaps), Place(gaps, p), n)
    decreases |raw|
  {
    var m := |raw| - 1;
    SpreadAt(raw, gaps, p);
    SpreadLength(raw, gaps);
    if p == m {
      assert gaps[p := n][..m] == gaps[..m];
      var before := Spread(raw[..m], gaps[..m]);
      assert Spread(raw, gaps) == before + [raw[m]];
      assert Place(gaps, p) == |before|;
    } else {
      SpreadWider(raw[..m], gaps[..m], p, n);
      PlacePrefix(gaps, m, p);
      assert gaps[p := n][..m] == gaps[..m][p := n];
      InsertApp(Spread(raw[..m], gaps[..m]), Blanks(gaps[m]) + [raw[m]], Place(gaps, p), n);
      assert Spread(raw, gaps) == Spread(raw[..m], gaps[..m]) + (Blanks(gaps[m]) + [raw[m]]);
      assert Spread(raw, gaps[p := n]) == Spread(raw[..m], gaps[..m][p := n]) + (Blanks(gaps[m]) + [raw[m]]);
    }
  }

  lemma InsertApp(a: seq<Block>, b: seq<Block>, k: nat, n: nat)
    requires k <= |a|
    ensures Insert(a + b, k, n) == Insert(a, k, n) + b
  {
  }

  /** A list stays the shunted output when a block is shunted along. */
  lemma ShuntedInsert(raw: seq<Block>, blocks: seq<Block>, floor: map<Block, nat>, k: nat, n: nat)
    requires Shunted(raw, blocks, floor) && PairAt(blocks, k) && k + n >= Cached(floor, blocks[k])
    ensures Shunted(raw, Insert(blocks, k, n), floor)
  {
    var gaps :| GapsOk(raw, gaps, floor) && blocks == Spread(raw, gaps);
    var p := SpreadFrom(raw, gaps, k);
    if gaps[p] > 0 {
      GapBefore(raw, gaps, p);
    }
    assert p > 0;
    SpreadAt(raw, gaps, p - 1);
    var wider := gaps[p := n];
    SpreadWider(raw, gaps, p, n);
    forall q | 0 <= q < |raw| ensures GapOk(raw, wider, floor, q) {
      assert GapOk(raw, gaps, floor, q);
      PlaceWider(gaps, p, n, q);
    }
    assert GapsOk(raw, wider, floor);
  }

  lemma ShuntedStart(raw: seq<Block>, floor: map<Block, nat>)
    ensures Shunted(raw, raw, floor)
  {
    var gaps: seq<nat> := seq(|raw|, _ => 0);
    SpreadZeros(raw, gaps);
    assert GapsOk(raw, gaps, floor);
  }

  lemma {:induction false} SpreadZeros(raw: seq<Block>, gaps: seq<nat>)
    requires |gaps| == |raw| && forall p :: 0 <= p < |gaps| ==> gaps[p] == 0
    ensures Spread(raw, gaps) == raw
    decreases |raw|
  {
    if raw != [] {
      var n := |raw| - 1;
      SpreadZeros(raw[..n], gaps[..n]);
      assert Blanks(0) == [] && raw == raw[..n] + [raw[n]];
    }
  }

  // ----- Catching up ---------------------------------------------------------------------------------

  /** No block comes twice, but for the empty one. */
  ghost predicate NoRepeats(raw: seq<Block>) {
    forall p, q :: 0 <= p < q < |raw| && raw[p] != "" ==> raw[p] != raw[q]
  }

  lemma FirstIsPlace(raw: seq<Block>, gaps: seq<nat>, p: nat)
    requires |gaps| == |raw| && NoRepeats(raw) && p < |raw| && raw[p] != ""
    ensures IndexIn(Spread(raw, gaps), raw[p]) == Place(gaps, p)
  {
    SpreadAt(raw, gaps, p);
    var q := SpreadFrom(raw, gaps, FirstIndex(Spread(raw, gaps), raw[p]));
    assert q == p;
  }

  /** A list made from the same output again, and shunted with a cache in which every block has at
      least its place in the other list, is nowhere behind that list. */
  lemma {:induction false} CatchUp(raw: seq<Block>, gaps: seq<nat>, gaps': seq<nat>, cache: map<Block, nat>, p: nat)
    requires NoRepeats(raw) && GapsOk(raw, gaps, map[]) && GapsOk(raw, gaps', cache) && p < |raw|
    requires forall b :: b != "" ==> IndexIn(Spread(raw, gaps), b) <= Cached(cache, b)
    requires forall k :: PairAt(Spread(raw, gaps'), k) ==> k >= Cached(cache, Spread(raw, gaps')[k])
    ensures Place(gaps, p) <= Place(gaps', p)
    decreases p
  {
    assert GapOk(raw, gaps, map[], p) && GapOk(raw, gaps', cache, p);
    if p > 0 {
      CatchUp(raw, gaps, gaps', cache, p - 1);
      if gaps[p] > 0 {
        FirstIsPlace(raw, gaps, p);
        if gaps'[p] == 0 {
          SpreadAt(raw, gaps', p - 1);
          SpreadAt(raw, gaps', p);
          assert PairAt(Spread(raw, gaps'), Place(gaps', p));
        }
      }
    }
  }

  lemma ListCatchesUp(raw: seq<Block>, before: seq<Block>, after: seq<Block>, cache: map<Block, nat>, b: Block)
    requires NoRepeats(raw) && Shunted(raw, before, map[]) && Shunted(raw, after, cache) && b != ""
    requires forall x :: x != "" ==> IndexIn(before, x) <= Cached(cache, x)
    requires forall k :: PairAt(after, k) ==> k >= Cached(cache, after[k])
    ensures IndexIn(before, b) <= IndexIn(after, b)
  {
    var gaps :| GapsOk(raw, gaps, map[]) && before == Spread(raw, gaps);
    var gaps' :| GapsOk(raw, gaps', cache) && after == Spread(raw, gaps');
    if b in before {
      var p := SpreadFrom(raw, gaps, FirstIndex(before, b));
      CatchUp(raw, gaps, gaps', cache, p);
      FirstIsPlace(raw, gaps, p);
      FirstIsPlace(raw, gaps', p);
    }
  }
}
