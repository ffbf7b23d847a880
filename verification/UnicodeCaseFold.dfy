/** The conversion of a case-folding table into a chain of ifs. */
module UnicodeCaseFold {
  datatype Mapping = Mapping(from: int, to: int)

  type Block = seq<Mapping>

  /** The statements of the generated function; each is an if with a return, or falls through. */
  datatype Stmt =
    | IfEqual(c: int, result: int)
    | IfLess(first: int)
    | IfModulo(last: int, stride: int, modulo: int, shift: int)
    | IfOr(last: int)
    | IfUpTo(last: int, shift: int)

  datatype Error = Unsorted | IndexError

  datatype Result = Success(body: seq<Stmt>) | Failure(error: Error)

  // ----- What the generated function does --------------------------------------------------------

  /** The remainder of C++: it has the sign of the dividend. */
  function Remainder(a: int, b: int): int
    requires b != 0
  {
    if a >= 0 then a % b else -(-a % b)
  }

  /** c | 1. */
  function OrOne(c: int): int {
    if c % 2 == 0 then c + 1 else c
  }

  /** foldCharSimple: the statements in order, then return C. */
  function Fold(body: seq<Stmt>, c: int): int {
    if body == [] then c
    else match body[0]
      case IfEqual(x, result) => if c == x then result else Fold(body[1..], c)
      case IfLess(first) => if c < first then c else Fold(body[1..], c)
      case IfModulo(last, stride, modulo, shift) =>
        if c <= last && stride != 0 && Remainder(c, stride) == modulo then c + shift else Fold(body[1..], c)
      case IfOr(last) => if c <= last then OrOne(c) else Fold(body[1..], c)
      case IfUpTo(last, shift) => if c <= last then c + shift else Fold(body[1..], c)
  }

  /** The table as a function: the mapped value, or the character itself. */
  function Lookup(table: seq<Mapping>, c: int): int {
    if table == [] then c else if table[0].from == c then table[0].to else Lookup(table[1..], c)
  }

  // ----- The generator, as a function ----------------------------------------------------------------

  function Shift(m: Mapping): int { m.to - m.from }

  function Stride2(m: Mapping, k: Mapping): int { k.from - m.from }

  function Stride(b: Block): int
    requires |b| >= 2
  {
    Stride2(b[0], b[1])
  }

  /** The characters are not negative and strictly ascending. */
  predicate Ascending(t: seq<Mapping>) {
    (t != [] ==> t[0].from >= 0) && forall i, j {:trigger Before(t, i, j)} :: 0 <= i < j < |t| ==> Before(t, i, j)
  }

  predicate Before(t: seq<Mapping>, i: int, j: int)
    requires 0 <= i < j < |t|
  {
    t[i].from < t[j].from
  }

  /** A block: one shift, and one stride between neighbours. */
  predicate IsRun(b: Block) {
    && b != [] && (forall i :: 0 <= i < |b| ==> Shift(b[i]) == Shift(b[0]))
    && forall i, j :: 0 <= i < |b| - 1 && j == i + 1 ==> Stride2(b[i], b[j]) == Stride(b)
  }

  predicate Fits(b: Block, m: Mapping)
    requires b != []
  {
    Shift(b[0]) == Shift(m) && (|b| == 1 || Stride(b) == Stride2(b[|b| - 1], m))
  }

  /** The blocks that come of a current block and the rest of the table. */
  function Split(current: Block, rest: seq<Mapping>): seq<Block>
    requires current != []
    decreases |rest|
  {
    if rest == [] then [current]
    else if Fits(current, rest[0]) then Split(current + [rest[0]], rest[1..])
    else [current] + Split([rest[0]], rest[1..])
  }

  function Dump(b: Block): seq<Stmt>
    requires IsRun(b) && Ascending(b)
  {
    if |b| == 1 then [IfEqual(b[0].from, b[0].to)]
    else
      assert Before(b, 0, 1);
      var first, stride, shift := b[0].from, Stride(b), Shift(b[0]);
      var last := first + stride * (|b| - 1);
      var modulo := first % stride;
      [IfLess(first)]
      + [if stride == 2 && shift == 1 && modulo == 0 then IfOr(last)
         else if stride == 1 then IfUpTo(last, shift)
         else IfModulo(last, stride, modulo, shift)]
  }

  function Concat(bs: seq<Block>): seq<Mapping> {
    if bs == [] then [] else bs[0] + Concat(bs[1..])
  }

  ghost predicate AllRuns(bs: seq<Block>) {
    forall k :: 0 <= k < |bs| ==> IsRun(bs[k])
  }

  predicate Dumpable(bs: seq<Block>) {
    forall k :: 0 <= k < |bs| ==> IsRun(bs[k]) && Ascending(bs[k])
  }

  function DumpAll(bs: seq<Block>): seq<Stmt>
    requires Dumpable(bs)
  {
    if bs == [] then [] else Dump(bs[0]) + DumpAll(bs[1..])
  }

  // ----- Splitting --------------------------------------------------------------------------------------

  lemma RunSnoc(b: Block, m: Mapping)
    requires IsRun(b)
    ensures IsRun(b + [m]) <==> Fits(b, m)
  {
    var c := b + [m];
    if Fits(b, m) {
      forall i, j | 0 <= i < |c| - 1 && j == i + 1 ensures Stride2(c[i], c[j]) == Stride(c) {
        if j < |b| {
          assert Stride2(b[i], b[j]) == Stride(b);
        }
      }
    }
    if IsRun(c) {
      assert Shift(c[|b|]) == Shift(c[0]);
      assert Stride2(c[|b| - 1], c[|b|]) == Stride(c);
    }
  }

  /** A stretch of a run is a run. */
  lemma RunInside(b: Block, from: nat, to: nat)
    requires IsRun(b) && from < to <= |b|
    ensures IsRun(b[from..to])
  {
    var c := b[from..to];
    forall i | 0 <= i < |c| ensures Shift(c[i]) == Shift(c[0]) {
      assert Shift(b[from + i]) == Shift(b[0]) && Shift(b[from]) == Shift(b[0]);
    }
    forall i, j | 0 <= i < |c| - 1 && j == i + 1 ensures Stride2(c[i], c[j]) == Stride(c) {
      assert Stride2(b[from + i], b[from + i + 1]) == Stride(b) && Stride2(b[from], b[from + 1]) == Stride(b);
    }
  }

  /** The split consists of runs, and put together they are the table. */
  lemma {:induction false} SplitIsSplit(current: Block, rest: seq<Mapping>)
    requires IsRun(current)
    ensures AllRuns(Split(current, rest)) && Concat(Split(current, rest)) == current + rest
    decreases |rest|
  {
    if rest == [] {
      assert [current][1..] == [];
    } else if Fits(current, rest[0]) {
      RunSnoc(current, rest[0]);
      SplitIsSplit(current + [rest[0]], rest[1..]);
      assert current + [rest[0]] + rest[1..] == current + rest;
    } else {
      SplitIsSplit([rest[0]], rest[1..]);
      assert [rest[0]] + rest[1..] == rest;
      assert Split(current, rest)[1..] == Split([rest[0]], rest[1..]);
    }
  }

  /** No split of a table that ends in the current block and the rest has fewer blocks. */
  lemma {:induction false} SplitMinimal(before: seq<Mapping>, current: Block, rest: seq<Mapping>, bs: seq<Block>)
    requires IsRun(current) && AllRuns(bs) && Concat(bs) == before + current + rest
    ensures |Split(current, rest)| <= |bs|
    decreases |rest|
  {
    assert bs != [];
    if rest == [] {
    } else if Fits(current, rest[0]) {
      RunSnoc(current, rest[0]);
      assert before + (current + [rest[0]]) + rest[1..] == before + current + rest;
      SplitMinimal(before, current + [rest[0]], rest[1..], bs);
    } else {
      FirstBlockEnds(before, current, rest, bs);
      var taken := before + current;
      var before' := taken[|bs[0]|..];
      assert Concat(bs) == bs[0] + Concat(bs[1..]);
      assert Concat(bs[1..]) == (taken + rest)[|bs[0]|..] == before' + rest;
      assert before' + [rest[0]] + rest[1..] == before' + rest;
      forall k | 0 <= k < |bs| - 1 ensures IsRun(bs[1..][k]) {
        assert IsRun(bs[k + 1]);
      }
      SplitMinimal(before', [rest[0]], rest[1..], bs[1..]);
    }
  }

  /** A block that starts no later than the current one does not reach a mapping that does not fit. */
  lemma FirstBlockEnds(before: seq<Mapping>, current: Block, rest: seq<Mapping>, bs: seq<Block>)
    requires IsRun(current) && AllRuns(bs) && Concat(bs) == before + current + rest && rest != [] && bs != []
    requires !Fits(current, rest[0])
    ensures |bs[0]| <= |before| + |current|
  {
    var n := |before| + |current|;
    if |bs[0]| > n {
      assert Concat(bs) == bs[0] + Concat(bs[1..]);
      var whole := before + current + rest;
      assert bs[0] == whole[..|bs[0]|];
      assert bs[0][|before|..n + 1] == whole[|before|..n + 1];
      assert whole[|before|..n + 1] == current + [rest[0]];
      RunInside(bs[0], |before|, n + 1);
      RunSnoc(current, rest[0]);
    }
  }

  /** The greedy split of a table has the fewest blocks of all. */
  lemma SplitTable(table: seq<Mapping>, bs: seq<Block>)
    requires table != [] && AllRuns(bs) && Concat(bs) == table
    ensures var split := Split([table[0]], table[1..]);
      AllRuns(split) && Concat(split) == table && |split| <= |bs|
  {
    assert [table[0]] + table[1..] == table && [] + [table[0]] + table[1..] == table;
    SplitIsSplit([table[0]], table[1..]);
    SplitMinimal([], [table[0]], table[1..], bs);
  }

  // ----- The chain of ifs ----------------------------------------------------------------------------------

  /** The i-th character of a run. */
  lemma {:induction false} RunAt(b: Block, i: nat)
    requires IsRun(b) && |b| >= 2 && i < |b|
    ensures b[i].from == b[0].from + i * Stride(b)
  {
    if i > 0 {
      RunAt(b, i - 1);
      assert Stride2(b[i - 1], b[i]) == Stride(b);
      assert i * Stride(b) == (i - 1) * Stride(b) + Stride(b);
    }
  }

  lemma {:induction false} LookupAt(t: seq<Mapping>, i: nat)
    requires Ascending(t) && i < |t|
    ensures Lookup(t, t[i].from) == t[i].to
  {
    if i > 0 {
      assert Before(t, 0, i);
      AscendingRest(t, 1);
      LookupAt(t[1..], i - 1);
    }
  }

  lemma {:induction false} LookupAbsent(t: seq<Mapping>, c: int)
    requires forall i :: 0 <= i < |t| ==> t[i].from != c
    ensures Lookup(t, c) == c
  {
    if t != [] {
      LookupAbsent(t[1..], c);
    }
  }

  lemma {:induction false} LookupApp(a: seq<Mapping>, b: seq<Mapping>, c: int)
    requires forall i :: 0 <= i < |a| ==> a[i].from != c
    ensures Lookup(a + b, c) == Lookup(b, c)
  {
    if a == [] {
      assert a + b == b;
    } else {
      assert (a + b)[1..] == a[1..] + b;
      LookupApp(a[1..], b, c);
    }
  }

  lemma AscendingRest(t: seq<Mapping>, n: nat)
    requires Ascending(t) && n <= |t|
    ensures Ascending(t[..n]) && Ascending(t[n..])
  {
    forall i, j | 0 <= i < j < n ensures Before(t[..n], i, j) {
      assert Before(t, i, j);
    }
    forall i, j | 0 <= i < j < |t| - n ensures Before(t[n..], i, j) {
      assert Before(t, n + i, n + j);
    }
    if 0 < n < |t| {
      assert Before(t, 0, n);
    }
  }

  /** Where a character lies in a run, in terms of the stride. */
  lemma InRun(b: Block, c: int)
    requires IsRun(b) && Ascending(b) && |b| >= 2
    ensures var first, stride := b[0].from, Stride(b);
      var last := first + stride * (|b| - 1);
      && stride > 0 && b[|b| - 1].from == last
      && (first <= c <= last && c % stride == first % stride <==> exists i :: 0 <= i < |b| && b[i].from == c)
  {
    var first, stride := b[0].from, Stride(b);
    RunAt(b, |b| - 1);
    assert Before(b, 0, 1);
    if i :| 0 <= i < |b| && b[i].from == c {
      RunAt(b, i);
      SameRemainder(first, stride, i);
      assert i == |b| - 1 || Before(b, i, |b| - 1);
      assert i == 0 || Before(b, 0, i);
    }
    if first <= c <= first + stride * (|b| - 1) && c % stride == first % stride {
      var i := IndexOf(first, stride, c);
      IndexInside(stride, i, |b| - 1);
      RunAt(b, i);
    }
  }

  lemma SameRemainder(first: int, stride: int, i: nat)
    requires stride > 0
    ensures (first + i * stride) % stride == first % stride
    decreases i
  {
    if i > 0 {
      SameRemainder(first, stride, i - 1);
      assert first + i * stride == first + (i - 1) * stride + stride;
      AddStride(first + (i - 1) * stride, stride);
    }
  }

  lemma AddStride(x: int, stride: int)
    requires stride > 0
    ensures (x + stride) % stride == x % stride
  {
    var q := x / stride;
    assert x + stride == (q + 1) * stride + x % stride;
    QuotientUnique(x + stride, stride, q + 1, x % stride);
  }

  lemma QuotientUnique(x: int, d: int, q: int, r: int)
    requires d > 0 && x == q * d + r && 0 <= r < d
    ensures x / d == q && x % d == r
  {
    var p := x / d;
    assert x == p * d + x % d;
    if p < q {
      TimesMore(p, q, d);
    } else if q < p {
      TimesMore(q, p, d);
    }
  }

  lemma TimesMore(a: int, b: int, d: int)
    requires a < b && d > 0
    ensures a * d + d <= b * d
  {
    assert b * d - a * d == (b - a) * d;
    assert (b - a - 1) * d >= 0;
  }

  lemma IndexOf(first: int, stride: int, c: int) returns (i: nat)
    requires stride > 0 && first <= c && c % stride == first % stride
    ensures c == first + i * stride
  {
    var q := c / stride - first / stride;
    assert c == c / stride * stride + c % stride && first == first / stride * stride + first % stride;
    assert c - first == q * stride;
    if q < 0 {
      TimesMore(q, 0, stride);
    }
    i := q;
  }

  lemma IndexInside(stride: int, i: nat, n: nat)
    requires stride > 0 && i * stride <= stride * n
    ensures i <= n
  {
    if i > n {
      TimesMore(n, i, stride);
    }
  }

  /** The ifs for one block, before the rest of the chain. */
  lemma DumpFolds(b: Block, more: seq<Stmt>, c: int)
    requires IsRun(b) && Ascending(b)
    ensures Fold(Dump(b) + more, c)
      == if exists i :: 0 <= i < |b| && b[i].from == c then c + Shift(b[0])
         else if |b| > 1 && c < b[0].from then c
         else if |b| > 1 && b[0].from <= c <= b[|b| - 1].from && Stride(b) == 2 && Shift(b[0]) == 1 && b[0].from % 2 == 0 then c
         else Fold(more, c)
  {
    if |b| == 1 {
      assert (Dump(b) + more)[1..] == more;
      assert Shift(b[0]) == b[0].to - b[0].from;
    } else {
      InRun(b, c);
      var d := Dump(b);
      assert (d + more)[1..] == [d[1]] + more && ([d[1]] + more)[1..] == more;
      AllOfStrideOne(b, c);
      if c >= b[0].from {
        assert c >= 0 && Remainder(c, Stride(b)) == c % Stride(b);
      }
    }
  }

  lemma AllOfStrideOne(b: Block, c: int)
    requires IsRun(b) && Ascending(b) && |b| >= 2
    ensures c % 1 == b[0].from % 1
  {
  }

  lemma {:induction false} ConcatAscending(bs: seq<Block>)
    requires AllRuns(bs) && Ascending(Concat(bs))
    ensures Dumpable(bs)
  {
    if bs != [] {
      var t := Concat(bs);
      assert IsRun(bs[0]);
      AscendingRest(t, |bs[0]|);
      assert t[..|bs[0]|] == bs[0] && t[|bs[0]|..] == Concat(bs[1..]);
      forall k | 0 <= k < |bs| - 1 ensures IsRun(bs[1..][k]) {
        assert IsRun(bs[k + 1]);
      }
      ConcatAscending(bs[1..]);
      forall k | 0 <= k < |bs| ensures IsRun(bs[k]) && Ascending(bs[k]) {
        if k > 0 {
          assert IsRun(bs[1..][k - 1]) && Ascending(bs[1..][k - 1]);
        }
      }
    }
  }

  /** A character up to the end of a block, but not in it, is not in the rest either. */
  lemma MissInside(t: seq<Mapping>, b: Block, rest: seq<Mapping>, c: int)
    requires t == b + rest && Ascending(t) && b != []
    ensures c <= b[0].from || c <= b[|b| - 1].from ==> Lookup(rest, c) == c
  {
    if c <= b[0].from || c <= b[|b| - 1].from {
      assert |b| > 1 ==> Before(t, 0, |b| - 1);
      assert t[|b| - 1] == b[|b| - 1] && t[0] == b[0] && t[|b|..] == rest;
      AfterBlock(t, |b|, c);
      LookupAbsent(rest, c);
    }
  }

  /** The chain for any list of blocks over an ascending table agrees with the table, for every c. */
  lemma {:induction false} ChainFolds(bs: seq<Block>, c: int)
    requires Dumpable(bs) && Ascending(Concat(bs))
    ensures Fold(DumpAll(bs), c) == Lookup(Concat(bs), c)
    decreases |bs|
  {
    if bs != [] {
      var b, rest := bs[0], Concat(bs[1..]);
      var t := Concat(bs);
      assert IsRun(b) && Ascending(b);
      AscendingRest(t, |b|);
      assert t[|b|..] == rest;
      forall k | 0 <= k < |bs| - 1 ensures IsRun(bs[1..][k]) && Ascending(bs[1..][k]) {
        assert IsRun(bs[k + 1]) && Ascending(bs[k + 1]);
      }
      ChainFolds(bs[1..], c);
      DumpFolds(b, DumpAll(bs[1..]), c);
      if i :| 0 <= i < |b| && b[i].from == c {
        assert t[i] == b[i] && Shift(b[i]) == Shift(b[0]);
        LookupAt(t, i);
      } else {
        LookupApp(b, rest, c);
        MissInside(t, b, rest, c);
      }
    }
  }

  lemma AfterBlock(t: seq<Mapping>, n: nat, c: int)
    requires Ascending(t) && 0 < n <= |t| && c <= t[n - 1].from
    ensures forall i :: 0 <= i < |t| - n ==> t[n..][i].from != c
  {
    forall i | 0 <= i < |t| - n ensures t[n..][i].from != c {
      assert Before(t, n - 1, n + i);
    }
  }

  // ----- The script ---------------------------------------------------------------------------------------------

  lemma SplitDumpable(table: seq<Mapping>)
    requires Ascending(table) && table != []
    ensures Dumpable(Split([table[0]], table[1..]))
  {
    SplitIsSplit([table[0]], table[1..]);
    assert [table[0]] + table[1..] == table;
    ConcatAscending(Split([table[0]], table[1..]));
  }

  lemma DumpAllCons(head: Block, rest: seq<Block>)
    requires IsRun(head) && Ascending(head) && Dumpable(rest)
    ensures Dumpable([head] + rest) && DumpAll([head] + rest) == Dump(head) + DumpAll(rest)
  {
    assert ([head] + rest)[1..] == rest;
  }

  lemma DumpableApp(a: seq<Block>, b: seq<Block>)
    requires Dumpable(a) && Dumpable(b)
    ensures Dumpable(a + b) && (a != [] ==> IsRun(a[0]) && Ascending(a[0]) && Dumpable(a[1..]))
  {
  }

  lemma {:induction false} DumpAllApp(a: seq<Block>, b: seq<Block>)
    requires Dumpable(a) && Dumpable(b)
    ensures Dumpable(a + b) && DumpAll(a + b) == DumpAll(a) + DumpAll(b)
  {
    DumpableApp(a, b);
    if a == [] {
      assert a + b == b;
    } else {
      var head, rest := a[0], a[1..];
      assert a == [head] + rest && a + b == [head] + (rest + b);
      DumpAllApp(rest, b);
      DumpAllCons(head, rest);
      DumpAllCons(head, rest + b);
    }
  }

  /** Two kinds of facts are stated behind this trigger, and looked into only where a proof says so. */
  ghost predicate Unseal(open: bool, kind: nat) { open }

  class Script {
    var body: seq<Stmt>
    var currentBlock: Block
    var previousFrom: int
    /** The blocks that have been dumped. */
    ghost var dumped: seq<Block>

    constructor ()
      ensures body == [] && currentBlock == [] && previousFrom == -1 && dumped == []
    {
      body, currentBlock, previousFrom, dumped := [], [], -1, [];
    }

    /** dump_block; on an empty block it fails. */
    method DumpBlock(b: Block) returns (ok: bool)
      requires b != [] ==> IsRun(b) && Ascending(b)
      modifies this`body
      ensures ok <==> b != []
      ensures body == if ok then old(body) + Dump(b) else old(body)
    {
      if b == [] {
        return false;
      }
      if |b| == 1 {
        body := body + [IfEqual(b[0].from, b[0].to)];
        return true;
      }
      assert Before(b, 0, 1);
      var first := b[0].from;
      var last := first + Stride(b) * (|b| - 1);
      var modulo := first % Stride(b);
      body := body + [IfLess(first)];
      var pattern := IfModulo(last, Stride(b), modulo, Shift(b[0]));
      if Stride(b) == 2 && Shift(b[0]) == 1 && modulo == 0 {
        pattern := IfOr(last);
      } else if Stride(b) == 1 {
        pattern := IfUpTo(last, Shift(b[0]));
      }
      body := body + [pattern];
      assert Dump(b) == [IfLess(first)] + [pattern];
      assert old(body) + [IfLess(first)] + [pattern] == old(body) + ([IfLess(first)] + [pattern]);
      return true;
    }

    /** After the first n mappings of the table. */
    ghost predicate Midway(table: seq<Mapping>, n: nat)
      reads this
      requires 0 < n <= |table|
    {
      IsRun(currentBlock) && Ascending(currentBlock) && |currentBlock| <= n
      && forall open {:trigger Unseal(open, 0)} :: Unseal(open, 0) ==> MidwayNow(table, n)
    }

    ghost predicate MidwayNow(table: seq<Mapping>, n: nat)
      reads this
      requires 0 < n <= |table| && currentBlock != []
    {
      && Dumpable(dumped) && body == DumpAll(dumped) && dumped + Split(currentBlock, table[n..]) == Split([table[0]], table[1..])
      && Ascending(table[..n]) && |currentBlock| <= n && currentBlock == table[n - |currentBlock|..n]
    }

    lemma MidwayFits(table: seq<Mapping>, n: nat)
      requires 0 < n < |table| && Midway(table, n) && Fits(currentBlock, table[n]) && Ascending(table[..n + 1])
      ensures var b := currentBlock + [table[n]];
        IsRun(b) && Ascending(b) && Split(b, table[n + 1..]) == Split(currentBlock, table[n..]) && b == table[n + 1 - |b|..n + 1]
    {
      assert Unseal(true, 0);
      RunSnoc(currentBlock, table[n]);
      assert table[n..][1..] == table[n + 1..];
      assert currentBlock + [table[n]] == table[n - |currentBlock|..n + 1];
      assert currentBlock + [table[n]] == table[..n + 1][n - |currentBlock|..];
      AscendingRest(table[..n + 1], n - |currentBlock|);
    }

    lemma MidwayNew(table: seq<Mapping>, n: nat)
      requires 0 < n < |table| && Midway(table, n) && !Fits(currentBlock, table[n]) && Ascending(table[..n + 1])
      ensures Split(currentBlock, table[n..]) == [currentBlock] + Split([table[n]], table[n + 1..])
      ensures Dumpable(dumped + [currentBlock]) && DumpAll(dumped + [currentBlock]) == body + Dump(currentBlock)
    {
      assert Unseal(true, 0);
      assert table[n..][1..] == table[n + 1..];
      DumpAllApp(dumped, [currentBlock]);
      assert [currentBlock][1..] == [] && Dump(currentBlock) + [] == Dump(currentBlock);
    }

    /** One mapping of the table, in ascending order so far. */
    method Add(m: Mapping, ghost table: seq<Mapping>, ghost n: nat)
      requires n < |table| && m == table[n] && Ascending(table[..n + 1])
      requires if n == 0 then body == [] && currentBlock == [] && dumped == [] else Midway(table, n)
      modifies this`body, this`currentBlock, this`dumped
      ensures Midway(table, n + 1)
    {
      if |currentBlock| == 0 {
        assert table[..1] == [m];
        FirstMidway(m, table);
        currentBlock := [m];
        return;
      }
      if Shift(currentBlock[0]) != Shift(m) {
        MidwayNew(table, n);
        StartBlock(m, table, n);
        return;
      }
      if |currentBlock| == 1 || Stride(currentBlock) == Stride2(currentBlock[|currentBlock| - 1], m) {
        Extend(m, table, n);
        return;
      }
      MidwayNew(table, n);
      StartBlock(m, table, n);
    }

    method Extend(m: Mapping, ghost table: seq<Mapping>, ghost n: nat)
      requires 0 < n < |table| && m == table[n] && Ascending(table[..n + 1]) && Midway(table, n) && Fits(currentBlock, m)
      modifies this`currentBlock
      ensures Midway(table, n + 1)
    {
      assert Unseal(true, 0);
      MidwayFits(table, n);
      currentBlock := currentBlock + [m];
    }

    lemma FirstMidway(m: Mapping, table: seq<Mapping>)
      requires 0 < |table| && m == table[0] && Ascending(table[..1]) && [m] == table[..1]
      ensures Split([m], table[1..]) == [] + Split([table[0]], table[1..]) && table[0..1] == [m] && IsRun([m]) && Ascending([m])
    {
    }

    method StartBlock(m: Mapping, ghost table: seq<Mapping>, ghost n: nat)
      requires 0 < n < |table| && m == table[n] && Ascending(table[..n + 1]) && Midway(table, n)
      requires Split(currentBlock, table[n..]) == [currentBlock] + Split([m], table[n + 1..])
      requires Dumpable(dumped + [currentBlock]) && DumpAll(dumped + [currentBlock]) == body + Dump(currentBlock)
      modifies this`body, this`currentBlock, this`dumped
      ensures Midway(table, n + 1)
    {
      assert Unseal(true, 0);
      var ok := DumpBlock(currentBlock);
      assert dumped + ([currentBlock] + Split([m], table[n + 1..])) == dumped + [currentBlock] + Split([m], table[n + 1..]);
      dumped := dumped + [currentBlock];
      currentBlock := [m];
      assert table[n..n + 1] == [m] && m == table[..n + 1][n];
      assert Before(table[..n + 1], 0, n);
    }

    /** The last block. */
    method Finish(ghost table: seq<Mapping>) returns (ok: bool)
      requires Ascending(table)
      requires if table == [] then currentBlock == [] else Midway(table, |table|)
      modifies this`body
      ensures ok <==> table != []
      ensures ok ==> Dumpable(Split([table[0]], table[1..])) && body == DumpAll(Split([table[0]], table[1..]))
    {
      if table != [] {
        assert Unseal(true, 0);
        assert table[|table|..] == [] && Split(currentBlock, []) == [currentBlock];
        SplitDumpable(table);
        DumpAllApp(dumped, [currentBlock]);
        assert [currentBlock][1..] == [] && Dump(currentBlock) + [] == Dump(currentBlock);
      }
      ok := DumpBlock(currentBlock);
    }

    /** After the first n mappings. */
    ghost predicate Ready(table: seq<Mapping>, n: nat)
      reads this
      requires n <= |table|
    {
      forall open {:trigger Unseal(open, 1)} :: Unseal(open, 1) ==>
        && Ascending(table[..n]) && previousFrom == (if n == 0 then -1 else table[n - 1].from)
        && if n == 0 then body == [] && currentBlock == [] && dumped == [] else Midway(table, n)
    }

    /** One mapping of the input file. */
    method Read(m: Mapping, ghost table: seq<Mapping>, ghost n: nat) returns (ok: bool)
      requires n < |table| && m == table[n] && Ready(table, n)
      modifies this
      ensures ok ==> Ready(table, n + 1)
      ensures !ok ==> !Ascending(table)
    {
      assert Unseal(true, 1);
      if m.from <= previousFrom {
        NotAscending(table, n);
        return false;
      }
      NextAscending(table, n);
      Add(m, table, n);
      previousFrom := m.from;
      return true;
    }

    /** The whole script on the mappings of its input file. */
    method Generate(table: seq<Mapping>) returns (r: Result)
      requires body == [] && currentBlock == [] && previousFrom == -1 && dumped == []
      modifies this
      ensures r.Success? <==> Ascending(table) && table != []
      ensures r.Failure? ==> r.error == if Ascending(table) then IndexError else Unsorted
      ensures r.Success? ==> Dumpable(Split([table[0]], table[1..])) && r.body == DumpAll(Split([table[0]], table[1..]))
    {
      var n := 0;
      assert table[..0] == [];
      while n < |table|
        invariant 0 <= n <= |table| && Ready(table, n)
      {
        var ok := Read(table[n], table, n);
        if !ok {
          return Failure(Unsorted);
        }
        n := n + 1;
      }
      assert Unseal(true, 1);
      assert table[..n] == table;
      var ok := Finish(table);
      return if ok then Success(body) else Failure(IndexError);
    }
  }

  lemma NotAscending(table: seq<Mapping>, n: nat)
    requires n < |table| && table[n].from <= if n == 0 then -1 else table[n - 1].from
    ensures !Ascending(table)
  {
    assert n > 0 ==> (Before(table, n - 1, n) <==> table[n - 1].from < table[n].from);
  }

  lemma NextAscending(table: seq<Mapping>, n: nat)
    requires n < |table| && Ascending(table[..n]) && table[n].from > if n == 0 then -1 else table[n - 1].from
    ensures Ascending(table[..n + 1])
  {
    var t := table[..n + 1];
    forall i, j | 0 <= i < j < |t| ensures Before(t, i, j) {
      if j == n && i < n - 1 {
        assert Before(table[..n], i, n - 1);
      } else if j < n {
        assert Before(table[..n], i, j);
      }
    }
  }

  /** The generated function agrees with the table on every character, and on every other int. */
  lemma GeneratedFolds(table: seq<Mapping>, c: int)
    requires Ascending(table) && table != []
    ensures Dumpable(Split([table[0]], table[1..]))
    ensures Fold(DumpAll(Split([table[0]], table[1..])), c) == Lookup(table, c)
  {
    SplitDumpable(table);
    SplitIsSplit([table[0]], table[1..]);
    assert [table[0]] + table[1..] == table;
    ChainFolds(Split([table[0]], table[1..]), c);
  }
}
