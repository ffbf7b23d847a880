/** The variable-length numbers of section 7.6 of DWARF 3, and the two readers, which shift
    in a 32-bit int. */
module Leb128 {
  type byte = x: int | 0 <= x < 256

  /** What a run of the C++ code gives: a value, abort() or a failed assert, or behaviour the
      language leaves undefined. */
  datatype Outcome<T> = Ok(value: T) | Aborted | Undefined

  const TWO_TO_THE_31: int := 0x8000_0000
  const TWO_TO_THE_32: int := 0x1_0000_0000
  const TWO_TO_THE_64: int := 0x1_0000_0000_0000_0000

  // ----- Encodings ------------------------------------------------------------------------

  /** Every byte but the last has its top bit set. */
  predicate Leb(e: seq<byte>) {
    e != [] && e[|e| - 1] < 128 && forall k :: 0 <= k < |e| - 1 ==> e[k] >= 128
  }

  function ValueU(e: seq<byte>): nat {
    if e == [] then 0 else e[0] % 128 + 128 * ValueU(e[1..])
  }

  function Power(n: nat): nat {
    if n == 0 then 1 else 128 * Power(n - 1)
  }

  /** Two's complement: bit 6 of the last byte is the sign. */
  function ValueS(e: seq<byte>): int {
    ValueU(e) - if e != [] && e[|e| - 1] % 128 >= 64 then Power(|e|) else 0
  }

  function EncodeU(v: nat): seq<byte> {
    if v < 128 then [v] else [v % 128 + 128] + EncodeU(v / 128)
  }

  function EncodeS(v: int): seq<byte>
    decreases if v < 0 then -v else v
  {
    var low, rest := v % 128, v / 128;
    if (rest == 0 && low < 64) || (rest == -1 && low >= 64) then [low] else [low + 128] + EncodeS(rest)
  }

  // ----- The arithmetic of the readers --------------------------------------------------------

  function BitOr(a: nat, b: nat): nat {
    if a == 0 && b == 0 then 0
    else 2 * BitOr(a / 2, b / 2) + if a % 2 == 1 || b % 2 == 1 then 1 else 0
  }

  function Pow2(n: nat): nat {
    if n == 0 then 1 else 2 * Pow2(n - 1)
  }

  /** A 32-bit pattern as a signed int, converted to a 64-bit unsigned one. */
  function SignExtend(v: nat): nat
    requires v < TWO_TO_THE_32
  {
    if v >= TWO_TO_THE_31 then v + TWO_TO_THE_64 - TWO_TO_THE_32 else v
  }

  /** n << shift for an int n >= 0, converted to uintptr_t. */
  function ShiftLeft(n: nat, shift: nat): Outcome<nat> {
    if shift >= 32 then Undefined else Ok(SignExtend(n * Pow2(shift) % TWO_TO_THE_32))
  }

  /** ~0 << shift, converted to uintptr_t. */
  function ShiftOnes(shift: nat): Outcome<nat> {
    if shift >= 32 then Undefined else Ok(SignExtend((TWO_TO_THE_32 - Pow2(shift)) % TWO_TO_THE_32))
  }

  /** Or is plus where the bits do not meet. */
  lemma {:induction false} OrIsPlus(a: nat, c: nat, k: nat)
    requires a < Pow2(k)
    ensures BitOr(a, c * Pow2(k)) == a + c * Pow2(k)
  {
    if k == 0 {
      OrZero(c);
    } else {
      var p := c * Pow2(k - 1);
      assert c * Pow2(k) == 2 * p by {
        assert c * (2 * Pow2(k - 1)) == 2 * (c * Pow2(k - 1));
      }
      OrIsPlus(a / 2, c, k - 1);
      assert (2 * p) / 2 == p && (2 * p) % 2 == 0;
    }
  }

  lemma {:induction false} OrZero(c: nat)
    ensures BitOr(0, c) == c
  {
    if c != 0 {
      OrZero(c / 2);
    }
  }

  lemma Powers()
    ensures Pow2(0) == 1 && Pow2(7) == 128 && Pow2(14) == 16384 && Pow2(21) == 2097152 && Pow2(28) == 268435456
    ensures Power(0) == 1 && Power(1) == 128 && Power(2) == 16384 && Power(3) == 2097152 && Power(4) == 268435456
  {
    assert Pow2(3) == 8;
    assert Pow2(6) == 64;
    assert Pow2(9) == 512;
    assert Pow2(12) == 4096;
    assert Pow2(15) == 32768;
    assert Pow2(18) == 262144;
    assert Pow2(21) == 2097152;
    assert Pow2(24) == 16777216;
    assert Pow2(27) == 134217728;
    assert Power(2) == 16384;
    assert Power(4) == 268435456;
  }

  /** The shift by 7 n in 32 bits: exact for the first four bytes, and for small values of
      the fifth. */
  lemma ShiftExact(b: nat, n: nat)
    requires b < 128 && n <= 4
    ensures Pow2(7 * n) == Power(n)
    ensures n < 4 || b < 8 ==> ShiftLeft(b, 7 * n) == Ok(b * Power(n))
    ensures n == 4 ==> ShiftLeft(b, 28) == Ok(SignExtend(b * Power(4) % TWO_TO_THE_32))
  {
    Powers();
    assert n == 0 || n == 1 || n == 2 || n == 3 || n == 4;
  }

  lemma OnesExact(n: nat)
    requires 1 <= n <= 4
    ensures ShiftOnes(7 * n) == Ok(Ones(n) * Power(n)) && Ones(n) * Power(n) == TWO_TO_THE_64 - Power(n)
  {
    Powers();
    assert n == 1 || n == 2 || n == 3 || n == 4;
  }

  /** All ones, without the lowest 7 n bits. */
  function Ones(n: nat): nat
    requires 1 <= n <= 4
  {
    (if n == 1 then 0x200_0000_0000_0000 else if n == 2 then 0x4_0000_0000_0000
     else if n == 3 then 0x800_0000_0000 else 0x10_0000_0000) - 1
  }

  // ----- Values -----------------------------------------------------------------------------

  lemma {:induction false} ValueSnoc(e: seq<byte>, b: byte)
    ensures ValueU(e + [b]) == ValueU(e) + b % 128 * Power(|e|) && ValueU(e) < Power(|e|)
  {
    if e == [] {
      assert [b][1..] == [] && ([] + [b]) == [b];
    } else {
      ValueSnoc(e[1..], b);
      assert (e + [b])[1..] == e[1..] + [b];
      assert 128 * (b % 128 * Power(|e| - 1)) == b % 128 * Power(|e|);
    }
  }

  /** What or-ing one more byte gives, as long as the shift is exact. */
  lemma OrByte(e: seq<byte>, b: byte)
    requires |e| < 4 || (|e| == 4 && b % 128 < 8)
    ensures ShiftLeft(b % 128, 7 * |e|) == Ok(b % 128 * Power(|e|))
    ensures BitOr(ValueU(e), b % 128 * Power(|e|)) == ValueU(e + [b])
  {
    ValueSnoc(e, b);
    ShiftExact(b % 128, |e|);
    OrIsPlus(ValueU(e), b % 128, 7 * |e|);
  }

  /** What or-ing the fifth byte gives. */
  lemma OrFifth(e: seq<byte>, b: byte)
    requires |e| == 4
    ensures ShiftLeft(b % 128, 28) == Ok(Fifth(b)) && BitOr(ValueU(e), Fifth(b)) == ValueU(e) + Fifth(b)
  {
    FifthShifted(b);
    OrHigh(e, FifthFactor(b));
    FifthMultiple(b);
  }

  /** What the fifth byte stands for. */
  lemma ValueOfFive(e: seq<byte>, b: byte)
    requires |e| == 4
    ensures ValueU(e + [b]) == ValueU(e) + b % 128 * 268435456
  {
    PowerFour();
    ValueSnoc(e, b);
  }

  lemma PowerFour()
    ensures Power(4) == 268435456 && Pow2(28) == 268435456
  {
    Powers();
  }

  lemma OrHigh(e: seq<byte>, c: nat)
    requires |e| == 4
    ensures BitOr(ValueU(e), c * 268435456) == ValueU(e) + c * 268435456
  {
    PowerFour();
    ValueSnoc(e, 0);
    OrIsPlus(ValueU(e), c, 28);
  }

  /** What the shift makes of the fifth byte: 2^28 times its lowest four bits, sign-extended. */
  function Fifth(b: byte): nat {
    b % 16 * 268435456 + if b % 16 >= 8 then 0xFFFF_FFFF_0000_0000 else 0
  }

  lemma FifthShifted(b: byte)
    ensures ShiftLeft(b % 128, 28) == Ok(Fifth(b))
  {
    PowerFour();
    ModShifted(b % 128);
    assert b % 128 % 16 == b % 16;
    ExtendFifth(b % 16);
  }

  lemma ExtendFifth(k: nat)
    requires k < 16
    ensures SignExtend(k * 268435456) == k * 268435456 + if k >= 8 then 0xFFFF_FFFF_0000_0000 else 0
  {
  }

  lemma ModShifted(n: nat)
    ensures n * 268435456 % TWO_TO_THE_32 == n % 16 * 268435456
  {
    assert n == n / 16 * 16 + n % 16;
    assert n * 268435456 == n / 16 * TWO_TO_THE_32 + n % 16 * 268435456;
  }

  /** The multiple of 2^28 that the fifth byte stands for after the shift. */
  function FifthFactor(b: byte): nat {
    b % 16 + if b % 16 >= 8 then 0xF_FFFF_FFF0 else 0
  }

  lemma FifthMultiple(b: byte)
    ensures Fifth(b) == FifthFactor(b) * 268435456
    ensures Fifth(b) == b % 128 * 268435456 <==> b % 128 < 8
  {
    assert b % 128 < 8 ==> b % 128 == b % 16;
  }

  // ----- The readers --------------------------------------------------------------------------

  /** The encoding e is at p. */
  predicate IsAt(mem: seq<byte>, p: int, e: seq<byte>) {
    0 <= p && p + |e| <= |mem| && mem[p..p + |e|] == e
  }

  /** Some encoding starts at p: the bytes with the top bit set end before the memory does. */
  ghost predicate SomeAt(mem: seq<byte>, p: int) {
    exists e :: Leb(e) && IsAt(mem, p, e)
  }

  /** The encodings the unsigned reader gets right. */
  predicate Right(e: seq<byte>) {
    |e| <= 4 || (|e| == 5 && e[4] < 8)
  }

  predicate Prefix(mem: seq<byte>, p: int, n: nat) {
    0 <= p && p + n <= |mem| && forall k :: p <= k < p + n ==> mem[k] >= 128
  }

  /** Which encoding there is after bytes with the top bit set. */
  lemma EndsAt(mem: seq<byte>, p: int, n: nat, e: seq<byte>)
    requires Prefix(mem, p, n) && Leb(e) && IsAt(mem, p, e)
    ensures n < |e| && (mem[p + n] < 128 <==> |e| == n + 1)
    ensures e[..n] == mem[p..p + n]
  {
    forall k | 0 <= k < |e| ensures e[k] == mem[p + k] {
      assert mem[p..p + |e|][k] == e[k];
    }
    assert e[|e| - 1] == mem[p + (|e| - 1)];
  }

  /** Which value belongs to the byte that has been read. */
  function AfterByte(mem: seq<byte>, p: int, n: nat): nat
    requires 0 <= p && p + n < |mem| && n <= 4
  {
    if n < 4 then ValueU(mem[p..p + n + 1]) else ValueU(mem[p..p + 4]) + Fifth(mem[p + 4])
  }

  lemma ReadStep(mem: seq<byte>, p: int, n: nat, result: nat)
    requires 0 <= p && p + n < |mem| && n <= 4 && result == ValueU(mem[p..p + n])
    ensures ShiftLeft(mem[p + n] % 128, 7 * n).Ok?
    ensures BitOr(result, ShiftLeft(mem[p + n] % 128, 7 * n).value) == AfterByte(mem, p, n)
  {
    if n < 4 {
      OrByte(mem[p..p + n], mem[p + n]);
      assert mem[p..p + n] + [mem[p + n]] == mem[p..p + n + 1];
    } else {
      OrFifth(mem[p..p + 4], mem[p + 4]);
    }
  }

  /** Five bytes come out right exactly where the last is small. */
  lemma FiveBytes(e: seq<byte>, b: byte)
    requires |e| == 4 && b < 128
    ensures ValueU(e) + Fifth(b) == ValueU(e + [b]) <==> b < 8
  {
    ValueOfFive(e, b);
    FifthMultiple(b);
    SameSum(ValueU(e), ValueU(e + [b]), Fifth(b), b % 128 * 268435456);
  }

  lemma SameSum(u: nat, v: nat, x: nat, y: nat)
    requires v == u + y
    ensures u + x == v <==> x == y
  {
  }

  /** The value for a whole encoding, right or wrong. */
  lemma WholeValue(mem: seq<byte>, p: int, e: seq<byte>)
    requires Leb(e) && IsAt(mem, p, e) && |e| <= 5
    ensures AfterByte(mem, p, |e| - 1) == ValueU(e) <==> Right(e)
  {
    if |e| == 5 {
      assert e[4] == mem[p + 4];
      assert e == mem[p..p + 4] + [mem[p + 4]];
      FiveBytes(mem[p..p + 4], mem[p + 4]);
    }
  }

  /** After n bytes, all with the top bit set. */
  ghost predicate Reading(mem: seq<byte>, p: int, n: nat, result: nat) {
    n <= 5 && (n == 0 || Prefix(mem, p, n)) && (n < 5 && 0 <= p <= |mem| - n ==> result == ValueU(mem[p..p + n]))
  }

  lemma ReadingStep(mem: seq<byte>, p: int, n: nat, result: nat)
    requires Reading(mem, p, n, result) && 0 <= p + n < |mem| && n < 5 && 0 <= p
    ensures var shifted := ShiftLeft(mem[p + n] % 128, 7 * n);
      && shifted.Ok? && BitOr(result, shifted.value) == AfterByte(mem, p, n)
      && (mem[p + n] >= 128 ==> Reading(mem, p, n + 1, BitOr(result, shifted.value)))
  {
    ReadStep(mem, p, n, result);
  }

  /** Where the memory ends first, there is no encoding. */
  lemma NoneAt(mem: seq<byte>, p: int, n: nat)
    requires (n == 0 || Prefix(mem, p, n)) && !(0 <= p + n < |mem|)
    ensures !SomeAt(mem, p)
  {
    forall e ensures !(Leb(e) && IsAt(mem, p, e)) {
      if Leb(e) && IsAt(mem, p, e) && n > 0 {
        EndsAt(mem, p, n, e);
      }
    }
  }

  lemma LongAt(mem: seq<byte>, p: int)
    requires Prefix(mem, p, 5)
    ensures forall e :: Leb(e) && IsAt(mem, p, e) ==> |e| > 5
  {
    forall e | Leb(e) && IsAt(mem, p, e) ensures |e| > 5 {
      EndsAt(mem, p, 5, e);
    }
  }

  lemma OnlyAt(mem: seq<byte>, p: int, n: nat)
    requires Prefix(mem, p, n) && p + n < |mem| && mem[p + n] < 128
    ensures Leb(mem[p..p + n + 1]) && IsAt(mem, p, mem[p..p + n + 1])
    ensures forall e :: Leb(e) && IsAt(mem, p, e) ==> e == mem[p..p + n + 1]
  {
    forall e | Leb(e) && IsAt(mem, p, e) ensures e == mem[p..p + n + 1] {
      EndsAt(mem, p, n, e);
    }
  }

  /** Reads the bytes up to the first one without the top bit, or fails at the sixth. */
  method ReadBytes(mem: seq<byte>, p: int) returns (r: Outcome<nat>, last: byte, next: int, shift: nat)
    ensures forall e :: Leb(e) && IsAt(mem, p, e) && |e| <= 5 ==>
      r == Ok(AfterByte(mem, p, |e| - 1)) && last == e[|e| - 1] && next == p + |e| && shift == 7 * |e|
    ensures forall e :: Leb(e) && IsAt(mem, p, e) && |e| > 5 ==> r == Undefined
    ensures !SomeAt(mem, p) ==> r == Undefined
  {
    var result: nat := 0;
    shift, next, last := 0, p, 0;
    ghost var n := 0;
    while true
      invariant n <= 5 && shift == 7 * n && next == p + n && Reading(mem, p, n, result)
      decreases 6 - n
    {
      if next < 0 || next >= |mem| {
        NoneAt(mem, p, n);
        return Undefined, last, next, shift;
      }
      if n == 5 {
        LongAt(mem, p);
      } else if p >= 0 {
        ReadingStep(mem, p, n, result);
      }
      last := mem[next];
      next := next + 1;
      var shifted := ShiftLeft(last % 128, shift);
      if shifted.Undefined? {
        return Undefined, last, next, shift;
      }
      result := BitOr(result, shifted.value);
      shift := shift + 7;
      if last < 128 {
        OnlyAt(mem, p, n);
        return Ok(result), last, next, shift;
      }
      n := n + 1;
    }
  }

  /** Reads an unsigned number and the position after it.  The value is right exactly where four
      bytes, or five with a small last one, make up the encoding; longer ones are undefined. */
  method ReadULEB128(mem: seq<byte>, p: int) returns (r: Outcome<nat>, next: int)
    ensures forall e :: Leb(e) && IsAt(mem, p, e) ==> (r == Ok(ValueU(e)) <==> Right(e))
    ensures forall e :: Leb(e) && IsAt(mem, p, e) && |e| <= 5 ==> r.Ok? && next == p + |e|
    ensures forall e :: Leb(e) && IsAt(mem, p, e) && |e| > 5 ==> r == Undefined
    ensures !SomeAt(mem, p) ==> r == Undefined
  {
    var last, shift;
    r, last, next, shift := ReadBytes(mem, p);
    forall e | Leb(e) && IsAt(mem, p, e) && |e| <= 5 ensures r == Ok(ValueU(e)) <==> Right(e) {
      WholeValue(mem, p, e);
    }
  }

  /** A 64-bit pattern for a signed number. */
  function Pattern(v: int): nat {
    v % TWO_TO_THE_64
  }

  lemma PatternOfNegative(u: nat, p: nat)
    requires u < p <= TWO_TO_THE_64
    ensures Pattern(u - p) == u + (TWO_TO_THE_64 - p)
  {
  }

  /** The value with all bits above it set. */
  lemma FilledWithOnes(e: seq<byte>)
    requires 1 <= |e| <= 4
    ensures ShiftOnes(7 * |e|).Ok? && ValueU(e) < Power(|e|) <= TWO_TO_THE_64
    ensures BitOr(ValueU(e), ShiftOnes(7 * |e|).value) == ValueU(e) + (TWO_TO_THE_64 - Power(|e|))
  {
    var n := |e|;
    ShiftExact(0, n);
    OnesExact(n);
    ValueSnoc(e, 0);
    OrIsPlus(ValueU(e), Ones(n), 7 * n);
  }

  lemma SignedValue(e: seq<byte>)
    requires Leb(e) && |e| <= 4 && e[|e| - 1] >= 64
    ensures ShiftOnes(7 * |e|).Ok?
    ensures BitOr(ValueU(e), ShiftOnes(7 * |e|).value) == Pattern(ValueS(e))
  {
    FilledWithOnes(e);
    PatternOfNegative(ValueU(e), Power(|e|));
  }

  /** The bits above an encoding of n bytes, filled with its sign. */
  function SignFill(result: nat, last: byte, shift: nat): Outcome<nat> {
    if last / 64 % 2 == 1 && shift < 64 then
      var ones := ShiftOnes(shift);
      if ones.Ok? then Ok(BitOr(result, ones.value)) else Undefined
    else Ok(result)
  }

  lemma SignFilled(mem: seq<byte>, p: int, e: seq<byte>)
    requires Leb(e) && IsAt(mem, p, e) && |e| <= 5
    ensures var r := SignFill(AfterByte(mem, p, |e| - 1), e[|e| - 1], 7 * |e|);
      && (r == Ok(Pattern(ValueS(e))) <==> Right(e))
      && (|e| == 5 && e[4] >= 64 ==> r == Undefined)
  {
    WholeValue(mem, p, e);
    SignFilledFrom(e, AfterByte(mem, p, |e| - 1));
  }

  lemma SignFilledFrom(e: seq<byte>, u: nat)
    requires Leb(e) && |e| <= 5 && (u == ValueU(e) <==> Right(e))
    ensures var r := SignFill(u, e[|e| - 1], 7 * |e|);
      && (r == Ok(Pattern(ValueS(e))) <==> Right(e))
      && (|e| == 5 && e[4] >= 64 ==> r == Undefined)
  {
    var last := e[|e| - 1];
    if last < 64 {
      PositivePattern(e);
    } else if |e| == 5 {
      assert SignFill(u, last, 35) == Undefined;
    } else {
      SignedValue(e);
    }
  }

  lemma PositivePattern(e: seq<byte>)
    requires Leb(e) && |e| <= 5 && e[|e| - 1] < 64
    ensures Pattern(ValueS(e)) == ValueU(e)
  {
    SmallValue(e);
  }

  /** Reads a signed number, as a 64-bit pattern, and the position after it. */
  method ReadSLEB128(mem: seq<byte>, p: int) returns (r: Outcome<nat>, next: int)
    ensures forall e :: Leb(e) && IsAt(mem, p, e) ==> (r == Ok(Pattern(ValueS(e))) <==> Right(e))
    ensures forall e :: Leb(e) && IsAt(mem, p, e) && r.Ok? ==> next == p + |e|
    ensures forall e :: Leb(e) && IsAt(mem, p, e) && (|e| > 5 || (|e| == 5 && e[4] >= 64)) ==> r == Undefined
    ensures !SomeAt(mem, p) ==> r == Undefined
  {
    var last, shift;
    r, last, next, shift := ReadBytes(mem, p);
    if r.Ok? {
      r := SignFill(r.value, last, shift);
    }
    forall e | Leb(e) && IsAt(mem, p, e) && |e| <= 5
      ensures (r == Ok(Pattern(ValueS(e))) <==> Right(e)) && (|e| == 5 && e[4] >= 64 ==> r == Undefined)
    {
      SignFilled(mem, p, e);
    }
  }

  lemma SmallValue(e: seq<byte>)
    requires |e| <= 5
    ensures ValueU(e) < 34359738368
  {
    ValueSnoc(e, 0);
    Powers();
    assert Power(5) == 34359738368;
    assert |e| == 0 || |e| == 1 || |e| == 2 || |e| == 3 || |e| == 4 || |e| == 5;
  }

  // ----- Encoding and decoding ----------------------------------------------------------------------

  lemma {:induction false} EncodeUValue(v: nat)
    ensures Leb(EncodeU(v)) && ValueU(EncodeU(v)) == v
  {
    if v >= 128 {
      EncodeUValue(v / 128);
      assert EncodeU(v)[1..] == EncodeU(v / 128);
    } else {
      assert [v][1..] == [];
    }
  }

  lemma {:induction false} EncodeULength(v: nat, k: nat)
    ensures |EncodeU(v)| <= k + 1 <==> v < Power(k + 1)
    decreases k
  {
    if k == 0 {
      assert Power(1) == 128;
    } else if v >= 128 {
      EncodeULength(v / 128, k - 1);
    } else {
      PowerGrows(k);
    }
  }

  lemma {:induction false} PowerGrows(k: nat)
    ensures Power(k + 1) >= 128
  {
    if k > 0 {
      PowerGrows(k - 1);
    }
  }

  /** Padded or not, an encoding that fits is read back; the standard's own encoding of v is read
      back exactly for v below 2^31. */
  lemma UnsignedRoundTrip(v: nat)
    ensures Right(EncodeU(v)) <==> v < TWO_TO_THE_31
  {
    EncodeUValue(v);
    EncodeULength(v, 3);
    EncodeULength(v, 4);
    Powers();
    assert Power(5) == 34359738368;
    var e := EncodeU(v);
    if |e| == 5 {
      FifthOf(e, v);
    }
  }

  predicate LastSigned(low: int, rest: int) {
    (rest == 0 && low < 64) || (rest == -1 && low >= 64)
  }

  lemma EncodeSCons(v: int)
    ensures var low, rest := v % 128, v / 128;
      EncodeS(v) == if LastSigned(low, rest) then [low] else [low + 128] + EncodeS(rest)
  {
  }

  lemma ValueCons(b: byte, e: seq<byte>)
    requires Leb(e) && b >= 128
    ensures Leb([b] + e) && ValueS([b] + e) == b - 128 + 128 * ValueS(e) && ([b] + e)[|e|] == e[|e| - 1]
  {
    assert ([b] + e)[1..] == e;
  }

  lemma ValueOne(b: byte)
    requires b < 128
    ensures Leb([b]) && ValueS([b]) == if b >= 64 then b - 128 else b
  {
    var e: seq<byte> := [b];
    assert e[1..] == [] && ValueU(e[1..]) == 0;
    assert ValueU(e) == b;
    assert Power(0) == 1;
    assert Power(1) == 128;
  }

  lemma {:induction false} EncodeSValue(v: int)
    ensures Leb(EncodeS(v)) && ValueS(EncodeS(v)) == v && (v < 0 <==> EncodeS(v)[|EncodeS(v)| - 1] >= 64)
    decreases if v < 0 then -v else v
  {
    var low, rest := v % 128, v / 128;
    EncodeSCons(v);
    if LastSigned(low, rest) {
      ValueOne(low);
    } else {
      EncodeSValue(rest);
      ValueCons(low + 128, EncodeS(rest));
    }
  }

  lemma {:induction false} EncodeSLength(v: int, k: nat)
    ensures |EncodeS(v)| <= k + 1 <==> -64 * Power(k) <= v < 64 * Power(k)
    decreases k
  {
    var low, rest := v % 128, v / 128;
    if k > 0 {
      PowerGrows(k - 1);
      if !((rest == 0 && low < 64) || (rest == -1 && low >= 64)) {
        EncodeSLength(rest, k - 1);
        assert 64 * Power(k) == 128 * (64 * Power(k - 1));
      }
    }
  }

  /** The fifth byte is small exactly for values below 2^31. */
  lemma FifthOf(e: seq<byte>, v: nat)
    requires Leb(e) && |e| == 5 && ValueU(e) == v
    ensures e[4] < 8 <==> v < TWO_TO_THE_31
  {
    assert e == e[..4] + [e[4]];
    ValueSnoc(e[..4], e[4]);
    PowerFour();
  }

  /** The standard's own encoding of a signed v is read back exactly for -2^27 <= v < 2^31. */
  lemma SignedRoundTrip(v: int)
    ensures Right(EncodeS(v)) <==> -134217728 <= v < TWO_TO_THE_31
  {
    EncodeSValue(v);
    EncodeSLength(v, 3);
    EncodeSLength(v, 4);
    Powers();
    var e := EncodeS(v);
    if |e| == 5 && v >= 0 {
      FifthOf(e, v);
    }
  }
}
