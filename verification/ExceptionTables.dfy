/** The personality routine of the exception demo: encoded pointers, action chains, and the
    search of the call-site table (section 1.6 of the Itanium C++ ABI: Exception Handling). */
module ExceptionTables {
  import opened Leb128

  /** Facts about the bytes at p are stated behind this trigger: they are looked into only where
      a proof says Unseal(true, p). */
  ghost predicate Unseal(open: bool, p: int) { open }

  // ----- Pointers ------------------------------------------------------------------------------

  const OMIT: byte := 0xff

  function LittleEndian(e: seq<byte>): nat {
    if e == [] then 0 else e[0] + 256 * LittleEndian(e[1..])
  }

  /** An n-byte number as a 64-bit pattern, sign-extended if it is signed. */
  function Extend(v: nat, n: nat, signed: bool): nat {
    if signed && n == 2 && v >= 0x8000 then v % 0x1_0000 + TWO_TO_THE_64 - 0x1_0000
    else if signed && n == 4 && v >= TWO_TO_THE_31 then v % TWO_TO_THE_32 + TWO_TO_THE_64 - TWO_TO_THE_32
    else v
  }

  /** memcpy of n bytes. */
  function Load(mem: seq<byte>, p: int, n: nat, signed: bool): Outcome<nat> {
    if 0 <= p && p + n <= |mem| then Ok(Extend(LittleEndian(mem[p..p + n]), n, signed)) else Undefined
  }

  /** The width of a fixed-size format; none for the variable ones. */
  function Width(format: nat): nat {
    match format
    case 0 => 8
    case 2 => 2
    case 3 => 4
    case 4 => 8
    case 10 => 2
    case 11 => 4
    case 12 => 8
    case _ => 0
  }

  function GetEncodingSize(enc: byte): Outcome<nat> {
    if enc == OMIT then Ok(0) else if Width(enc % 16) > 0 then Ok(Width(enc % 16)) else Aborted
  }

  /** n bytes at p hold a number in a format. */
  ghost predicate RawAt(mem: seq<byte>, p: int, format: nat, raw: nat, n: nat) {
    if format == 1 then exists e :: Leb(e) && Right(e) && IsAt(mem, p, e) && n == |e| && raw == ValueU(e)
    else if format == 9 then exists e :: Leb(e) && Right(e) && IsAt(mem, p, e) && n == |e| && raw == Pattern(ValueS(e))
    else Width(format) > 0 && n == Width(format) && Load(mem, p, n, format >= 10) == Ok(raw)
  }

  /** The pointer that the number at p stands for. */
  function Apply(mem: seq<byte>, p: int, enc: byte, raw: nat): Outcome<nat> {
    var mode := enc / 16 % 8;
    if mode > 1 then Aborted
    else
      var v := if mode == 1 then (raw + p) % TWO_TO_THE_64 else raw;
      if enc >= 128 then Load(mem, v, 8, false) else Ok(v)
  }

  // ----- The same, byte by byte ------------------------------------------------------------------

  /** The numbers that two, four and eight bytes stand for, lowest byte first. */
  function Two(mem: seq<byte>, p: int): nat
    requires 0 <= p && p + 2 <= |mem|
  {
    mem[p] as nat + 0x100 * (mem[p + 1] as nat)
  }

  function Four(mem: seq<byte>, p: int): nat
    requires 0 <= p && p + 4 <= |mem|
  {
    Two(mem, p) + 0x1_0000 * Two(mem, p + 2)
  }

  function Eight(mem: seq<byte>, p: int): nat
    requires 0 <= p && p + 8 <= |mem|
  {
    Four(mem, p) + 0x1_0000_0000 * Four(mem, p + 4)
  }

  /** v is the two's complement number with a pattern of values below size. */
  predicate TwosComplement(v: int, pattern: nat, size: nat) {
    -(size as int) <= 2 * v < size && (v == pattern || v == pattern - size)
  }

  /** The n bytes at p hold the number v in a format of the DWARF exception header. */
  ghost predicate NumberAt(mem: seq<byte>, p: int, format: nat, v: int, n: nat) {
    match format
    case 0 => 0 <= p && p + 8 <= |mem| && n == 8 && v == Eight(mem, p)
    case 1 => exists e :: Leb(e) && Right(e) && IsAt(mem, p, e) && n == |e| && v == ValueU(e)
    case 2 => 0 <= p && p + 2 <= |mem| && n == 2 && v == Two(mem, p)
    case 3 => 0 <= p && p + 4 <= |mem| && n == 4 && v == Four(mem, p)
    case 4 => 0 <= p && p + 8 <= |mem| && n == 8 && v == Eight(mem, p)
    case 9 => exists e :: Leb(e) && Right(e) && IsAt(mem, p, e) && n == |e| && v == ValueS(e)
    case 10 => 0 <= p && p + 2 <= |mem| && n == 2 && TwosComplement(v, Two(mem, p), 0x1_0000)
    case 11 => 0 <= p && p + 4 <= |mem| && n == 4 && TwosComplement(v, Four(mem, p), 0x1_0000_0000)
    case 12 => 0 <= p && p + 8 <= |mem| && n == 8 && TwosComplement(v, Eight(mem, p), TWO_TO_THE_64)
    case _ => false
  }

  lemma FewBytes(e: seq<byte>)
    ensures |e| == 2 ==> LittleEndian(e) == Two(e, 0)
    ensures |e| == 4 ==> LittleEndian(e) == Four(e, 0)
  {
    if |e| == 2 {
      assert e[1..][1..] == [] && LittleEndian(e[1..]) == e[1];
    } else if |e| == 4 {
      var f := e[1..][1..];
      assert f[1..][1..] == [] && LittleEndian(f[1..]) == e[3];
      assert LittleEndian(e[1..]) == e[1] + 256 * LittleEndian(f);
    }
  }

  lemma {:induction false} LittleEndianApp(e: seq<byte>, f: seq<byte>)
    requires |e| == 4
    ensures LittleEndian(e + f) == LittleEndian(e) + 0x1_0000_0000 * LittleEndian(f)
  {
    var t := e + f;
    assert t[1..] == e[1..] + f && t[1..][1..] == e[1..][1..] + f;
    assert t[1..][1..][1..] == e[1..][1..][1..] + f && t[1..][1..][1..][1..] == f;
    assert LittleEndian(t[1..][1..][1..]) == e[3] + 256 * LittleEndian(f);
    assert LittleEndian(t[1..][1..]) == e[2] + 256 * LittleEndian(t[1..][1..][1..]);
    assert LittleEndian(t[1..]) == e[1] + 256 * LittleEndian(t[1..][1..]);
    FewBytes(e);
  }

  lemma BytesAre(mem: seq<byte>, p: int, n: nat)
    requires 0 <= p && p + n <= |mem|
    ensures n == 2 ==> LittleEndian(mem[p..p + n]) == Two(mem, p)
    ensures n == 4 ==> LittleEndian(mem[p..p + n]) == Four(mem, p)
    ensures n == 8 ==> LittleEndian(mem[p..p + n]) == Eight(mem, p)
  {
    FewBytes(mem[p..p + n]);
    if n == 8 {
      assert mem[p..p + 8] == mem[p..p + 4] + mem[p + 4..p + 8];
      LittleEndianApp(mem[p..p + 4], mem[p + 4..p + 8]);
      FewBytes(mem[p..p + 4]);
      FewBytes(mem[p + 4..p + 8]);
    }
  }

  lemma SignedPattern(v: int, pattern: nat, n: nat, size: nat)
    requires (n == 2 && size == 0x1_0000) || (n == 4 && size == 0x1_0000_0000) || (n == 8 && size == TWO_TO_THE_64)
    requires pattern < size && TwosComplement(v, pattern, size)
    ensures Extend(pattern, n, true) == v % TWO_TO_THE_64
  {
  }

  lemma WordsFit(mem: seq<byte>, p: int)
    ensures 0 <= p && p + 2 <= |mem| ==> Two(mem, p) < 0x1_0000
    ensures 0 <= p && p + 4 <= |mem| ==> Four(mem, p) < 0x1_0000_0000
    ensures 0 <= p && p + 8 <= |mem| ==> Eight(mem, p) < TWO_TO_THE_64
  {
  }

  lemma FixedIsRaw(mem: seq<byte>, p: int, format: nat, v: int, n: nat)
    requires format in {0, 2, 3, 4, 10, 11, 12} && NumberAt(mem, p, format, v, n)
    ensures n == Width(format) && Load(mem, p, n, format >= 10) == Ok(v % TWO_TO_THE_64)
  {
    BytesAre(mem, p, n);
    WordsFit(mem, p);
    if format >= 10 {
      var pattern := LittleEndian(mem[p..p + n]);
      SignedPattern(v, pattern, n, if n == 2 then 0x1_0000 else if n == 4 then 0x1_0000_0000 else TWO_TO_THE_64);
    }
  }

  /** The formats agree with what the reader makes of them, up to the width of a pointer. */
  lemma NumberIsRaw(mem: seq<byte>, p: int, format: nat, v: int, n: nat)
    requires NumberAt(mem, p, format, v, n)
    ensures RawAt(mem, p, format, v % TWO_TO_THE_64, n)
  {
    if format == 1 {
      var e :| Leb(e) && Right(e) && IsAt(mem, p, e) && n == |e| && v == ValueU(e);
      UnsignedSmall(e);
    } else if format != 9 {
      FixedIsRaw(mem, p, format, v, n);
    }
  }

  lemma UnsignedSmall(e: seq<byte>)
    requires Leb(e) && Right(e)
    ensures ValueU(e) < TWO_TO_THE_64
  {
    SmallValue(e);
    ValueSnoc(e, 0);
    PowerBounds(|e|);
  }

  /** The pointer that the number v at p stands for, bit by bit of the encoding: bits 4 to 6 say
      whether it is absolute, relative to its own address or something unsupported, bit 7 whether
      the pointer is to be found where it leads. */
  ghost predicate PointerIs(mem: seq<byte>, p: int, enc: byte, v: int, r: Outcome<nat>) {
    var application, indirect := enc / 16 % 8, enc >= 128;
    && (application > 1 ==> r == Aborted)
    && (application == 0 && !indirect ==> r == Ok(v % TWO_TO_THE_64))
    && (application == 1 && !indirect ==> r == Ok((v + p) % TWO_TO_THE_64))
    && (application <= 1 && indirect ==>
          var a := (if application == 1 then v + p else v) % TWO_TO_THE_64;
          r == if a + 8 <= |mem| then Ok(Eight(mem, a)) else Undefined)
  }

  lemma ApplyIs(mem: seq<byte>, p: int, enc: byte, v: int)
    ensures PointerIs(mem, p, enc, v, Apply(mem, p, enc, v % TWO_TO_THE_64))
  {
    AddModulo(v, p);
    var a := (if enc / 16 % 8 == 1 then v + p else v) % TWO_TO_THE_64;
    if a + 8 <= |mem| {
      BytesAre(mem, a, 8);
    }
  }

  lemma AddModulo(v: int, p: int)
    ensures (v % TWO_TO_THE_64 + p) % TWO_TO_THE_64 == (v + p) % TWO_TO_THE_64
  {
    var q := v / TWO_TO_THE_64;
    assert v + p == (v % TWO_TO_THE_64 + p) + q * TWO_TO_THE_64;
    MultipleModulo(v % TWO_TO_THE_64 + p, q);
  }

  lemma {:induction false} MultipleModulo(x: int, q: int)
    ensures (x + q * TWO_TO_THE_64) % TWO_TO_THE_64 == x % TWO_TO_THE_64
  {
  }

  /** The encoding e, one the readers get right, is at p. */
  ghost predicate LebAt(mem: seq<byte>, p: int, e: seq<byte>) {
    forall open {:trigger Unseal(open, p)} :: Unseal(open, p) ==> Leb(e) && Right(e) && IsAt(mem, p, e)
  }

  /** n bytes at p hold the pointer v. */
  ghost predicate EncodedAt(mem: seq<byte>, p: int, enc: byte, v: nat, n: nat) {
    forall open {:trigger Unseal(open, p)} :: Unseal(open, p) ==>
      enc != OMIT && exists raw :: RawAt(mem, p, enc % 16, raw, n) && Apply(mem, p, enc, raw) == Ok(v)
  }

  method ReadEncodedPointer(mem: seq<byte>, p: int, enc: byte) returns (r: Outcome<nat>, next: int)
    ensures enc == OMIT ==> r == Ok(0) && next == p
    ensures enc != OMIT && Width(enc % 16) == 0 && enc % 16 != 1 && enc % 16 != 9 ==> r == Aborted
    ensures forall raw, n: nat :: enc != OMIT && RawAt(mem, p, enc % 16, raw, n) ==>
      r == Apply(mem, p, enc, raw) && (r.Ok? ==> next == p + n)
    ensures forall v, n: nat :: enc != OMIT && NumberAt(mem, p, enc % 16, v, n) ==>
      PointerIs(mem, p, enc, v, r) && (r.Ok? ==> next == p + n)
    ensures enc % 16 in {0, 2, 3, 4, 10, 11, 12} && enc != OMIT && (p < 0 || p + Width(enc % 16) > |mem|) ==> r == Undefined
  {
    next := p;
    if enc == OMIT {
      return Ok(0), next;
    }
    var format := enc % 16;
    if format == 1 {
      r, next := ReadULEB128(mem, p);
    } else if format == 9 {
      r, next := ReadSLEB128(mem, p);
    } else if Width(format) > 0 {
      r := Load(mem, p, Width(format), format >= 10);
      next := p + Width(format);
    } else {
      return Aborted, next;
    }
    if r.Ok? {
      r := Apply(mem, p, enc, r.value);
    }
    forall v, n: nat | NumberAt(mem, p, format, v, n) ensures PointerIs(mem, p, enc, v, r) && (r.Ok? ==> next == p + n) {
      NumberIsRaw(mem, p, format, v, n);
      ApplyIs(mem, p, enc, v);
    }
  }

  // ----- Actions ----------------------------------------------------------------------------------

  /** What one action record asks for. */
  datatype Clause = Cleanup | Catch(tag: int) | Filter

  /** A record: the bytes of its type offset and of the offset to the next record. */
  datatype Action = Action(typeBytes: seq<byte>, nextBytes: seq<byte>, clause: Clause)

  /** The type info object at the pointer with an index counted back from the class info. */
  ghost predicate TypeInfoAt(mem: seq<byte>, classInfo: int, ttype: byte, index: int, tag: int) {
    var p := classInfo - index * Width(ttype % 16);
    forall open {:trigger Unseal(open, p)} :: Unseal(open, p) ==>
      && ttype != OMIT && Width(ttype % 16) > 0
      && exists raw :: RawAt(mem, p, ttype % 16, raw, Width(ttype % 16)) && TypeIs(mem, Apply(mem, p, ttype, raw), tag)
  }

  predicate TypeIs(mem: seq<byte>, pointer: Outcome<nat>, tag: int) {
    pointer.Ok? && pointer.value != 0 && Load(mem, pointer.value, 4, true).Ok? && tag == Signed(Load(mem, pointer.value, 4, true).value)
  }

  /** The object behind a pointer begins with the type, as a signed number of four bytes. */
  lemma TypeIsNumber(mem: seq<byte>, pointer: nat, tag: int)
    requires pointer != 0 && NumberAt(mem, pointer, 11, tag, 4)
    ensures TypeIs(mem, Ok(pointer), tag)
  {
    FixedIsRaw(mem, pointer, 11, tag, 4);
    WordsFit(mem, pointer);
  }

  /** A 64-bit pattern as a signed number. */
  function Signed(v: nat): int {
    if v >= TWO_TO_THE_64 / 2 then v - TWO_TO_THE_64 else v
  }

  ghost predicate ClauseAt(mem: seq<byte>, classInfo: int, ttype: byte, index: int, clause: Clause) {
    match clause
    case Cleanup => index == 0
    case Filter => index < 0
    case Catch(tag) => index > 0 && TypeInfoAt(mem, classInfo, ttype, index, tag)
  }

  ghost predicate RecordAt(mem: seq<byte>, p: int, classInfo: int, ttype: byte, a: Action) {
    && LebAt(mem, p, a.typeBytes) && LebAt(mem, p + |a.typeBytes|, a.nextBytes)
    && ClauseAt(mem, classInfo, ttype, ValueS(a.typeBytes), a.clause)
  }

  /** A chain of action records: each leads to the next, by an offset from its second field. */
  ghost predicate ChainAt(mem: seq<byte>, p: int, classInfo: int, ttype: byte, chain: seq<Action>)
    decreases |chain|
  {
    chain != [] && RecordAt(mem, p, classInfo, ttype, chain[0])
    && var next := ValueS(chain[0].nextBytes);
    if next == 0 then |chain| == 1
    else ChainAt(mem, p + |chain[0].typeBytes| + next, classInfo, ttype, chain[1..])
  }

  /** The position, from 1, of the first clause for the type after i others; 0 if there is none.
      A filter on the way fails an assertion. */
  function Search(chain: seq<Action>, tag: int, i: nat): Outcome<nat> {
    if chain == [] then Ok(0)
    else match chain[0].clause
      case Filter => Aborted
      case Catch(t) => if t == tag then Ok(i + 1) else Search(chain[1..], tag, i + 1)
      case Cleanup => Search(chain[1..], tag, i + 1)
  }

  /** A filter comes before any clause for the type. */
  predicate FilterFirst(chain: seq<Action>, tag: int) {
    exists f :: 0 <= f < |chain| && chain[f].clause == Filter && forall k :: 0 <= k < f ==> chain[k].clause != Catch(tag)
  }

  /** The clause found is the first one for the type, and none is found where there is none; the
      search aborts exactly if a filter comes before. */
  lemma {:induction false} SearchFirst(chain: seq<Action>, tag: int, i: nat)
    ensures var r := Search(chain, tag, i);
      if FilterFirst(chain, tag) then r == Aborted
      else r.Ok? && var n := r.value;
        if n == 0 then forall k :: 0 <= k < |chain| ==> chain[k].clause != Catch(tag)
        else i < n <= i + |chain| && chain[n - i - 1].clause == Catch(tag)
             && forall k :: 0 <= k < n - i - 1 ==> chain[k].clause != Catch(tag)
  {
    if chain != [] && chain[0].clause != Catch(tag) {
      SearchFirst(chain[1..], tag, i + 1);
      FilterNext(chain, tag);
    }
  }

  lemma FilterNext(chain: seq<Action>, tag: int)
    requires chain != [] && chain[0].clause != Catch(tag)
    ensures FilterFirst(chain, tag) <==> chain[0].clause == Filter || FilterFirst(chain[1..], tag)
  {
    if FilterFirst(chain[1..], tag) {
      var f :| 0 <= f < |chain| - 1 && chain[1..][f].clause == Filter && forall k :: 0 <= k < f ==> chain[1..][k].clause != Catch(tag);
      assert chain[f + 1].clause == Filter;
    }
  }

  lemma PatternSigned(e: seq<byte>)
    requires Leb(e) && Right(e)
    ensures Signed(Pattern(ValueS(e))) == ValueS(e)
  {
    SmallValue(e);
    ValueSnoc(e, 0);
    PowerBounds(|e|);
  }

  lemma PowerBounds(n: nat)
    requires n <= 5
    ensures Power(n) <= 34359738368
  {
    Powers();
    assert Power(5) == 34359738368;
    assert n == 0 || n == 1 || n == 2 || n == 3 || n == 4 || n == 5;
  }

  /** The type behind a type offset, as the walk reads it. */
  method ReadType(mem: seq<byte>, ttype: byte, classInfo: int, index: int, ghost tag: int) returns (r: int)
    requires TypeInfoAt(mem, classInfo, ttype, index, tag)
    ensures r == tag
  {
    assert Unseal(true, classInfo - index * Width(ttype % 16));
    var size := GetEncodingSize(ttype);
    var entry := classInfo - index * size.value;
    ghost var raw :| RawAt(mem, entry, ttype % 16, raw, Width(ttype % 16)) && TypeIs(mem, Apply(mem, entry, ttype, raw), tag);
    var pointer, next := ReadEncodedPointer(mem, entry, ttype);
    assert pointer == Apply(mem, entry, ttype, raw);
    var word := Load(mem, pointer.value, 4, true);
    r := Signed(word.value);
  }

  method ReadPointer(mem: seq<byte>, p: int, enc: byte, ghost at: int, ghost v: nat, ghost n: nat) returns (r: nat, next: int)
    requires p == at && EncodedAt(mem, at, enc, v, n)
    ensures r == v && next == p + n
  {
    assert Unseal(true, at);
    ghost var raw :| RawAt(mem, p, enc % 16, raw, n) && Apply(mem, p, enc, raw) == Ok(v);
    var outcome;
    outcome, next := ReadEncodedPointer(mem, p, enc);
    r := outcome.value;
  }

  method ReadUnsigned(mem: seq<byte>, p: int, ghost at: int, ghost e: seq<byte>) returns (r: nat, next: int)
    requires p == at && LebAt(mem, at, e)
    ensures r == ValueU(e) && next == p + |e|
  {
    assert Unseal(true, at);
    var outcome;
    outcome, next := ReadULEB128(mem, p);
    assert outcome == Ok(ValueU(e));
    r := outcome.value;
  }

  method ReadSigned(mem: seq<byte>, p: int, ghost e: seq<byte>) returns (r: int, next: int)
    requires LebAt(mem, p, e)
    ensures r == ValueS(e) && next == p + |e|
  {
    assert Unseal(true, p);
    var outcome;
    outcome, next := ReadSLEB128(mem, p);
    assert outcome == Ok(Pattern(ValueS(e)));
    PatternSigned(e);
    r := Signed(outcome.value);
  }

  /** One record: the answer, or on to the next record. */
  method VisitAction(mem: seq<byte>, ttype: byte, classInfo: int, pos: int, tag: int, i: nat, ghost chain: seq<Action>)
    returns (done: bool, r: Outcome<nat>, next: int)
    requires ChainAt(mem, pos, classInfo, ttype, chain)
    ensures chain != [] && (done ==> r == Search(chain, tag, i))
    ensures !done ==> ChainAt(mem, next, classInfo, ttype, chain[1..]) && Search(chain[1..], tag, i + 1) == Search(chain, tag, i)
  {
    ghost var a := chain[0];
    assert RecordAt(mem, pos, classInfo, ttype, a);
    var index, second := ReadSigned(mem, pos, a.typeBytes);
    var offset, ignored := ReadSigned(mem, second, a.nextBytes);
    done, r, next := true, Ok(0), second + offset;
    if index < 0 {
      return true, Aborted, next;
    }
    if index > 0 {
      var found := ReadType(mem, ttype, classInfo, index, a.clause.tag);
      if found == tag {
        return true, Ok(i + 1), next;
      }
    }
    if offset == 0 {
      assert chain[1..] == [];
      return true, Ok(0), next;
    }
    done := false;
  }

  /** Walks a chain until a clause for the type is found or the chain ends. */
  method HandleActionValue(mem: seq<byte>, ttype: byte, classInfo: int, actionEntry: int, ours: bool, tag: int,
                           ghost chain: seq<Action>)
    returns (r: Outcome<nat>)
    requires ours ==> ChainAt(mem, actionEntry, classInfo, ttype, chain)
    ensures r == if ours then Search(chain, tag, 0) else Ok(0)
  {
    if !ours {
      return Ok(0);
    }
    var pos, i := actionEntry, 0;
    ghost var rest, answer := chain, Search(chain, tag, 0);
    while true
      invariant ChainAt(mem, pos, classInfo, ttype, rest) && Search(rest, tag, i) == answer
      decreases |rest|
    {
      var done;
      done, r, pos := VisitAction(mem, ttype, classInfo, pos, tag, i, rest);
      if done {
        return;
      }
      rest := rest[1..];
      i := i + 1;
    }
  }

  // ----- The language-specific data area -------------------------------------------------------------

  /** An entry of the call-site table, with how many bytes its numbers take, and its actions. */
  datatype Site = Site(start: nat, startSize: nat, length: nat, lengthSize: nat, pad: nat, padSize: nat,
                       actionBytes: seq<byte>, chain: seq<Action>)

  /** The area: the sizes and bytes of its header, and the call sites. */
  datatype Lsda = Lsda(lpStart: nat, lpStartSize: nat, offsetBytes: seq<byte>, lengthBytes: seq<byte>, sites: seq<Site>)

  function SiteEnd(p: int, s: Site): int {
    p + s.startSize + s.lengthSize + s.padSize + |s.actionBytes|
  }

  ghost predicate SiteAt(mem: seq<byte>, p: int, enc: byte, s: Site) {
    && EncodedAt(mem, p, enc, s.start, s.startSize)
    && EncodedAt(mem, p + s.startSize, enc, s.length, s.lengthSize)
    && EncodedAt(mem, p + s.startSize + s.lengthSize, enc, s.pad, s.padSize)
    && LebAt(mem, p + s.startSize + s.lengthSize + s.padSize, s.actionBytes)
  }

  /** The sites fill the table from p to end, and their actions follow it. */
  ghost predicate SitesAt(mem: seq<byte>, p: int, end: int, enc: byte, classInfo: int, ttype: byte, sites: seq<Site>)
    decreases |sites|
  {
    if sites == [] then p == end
    else
      && p < end && SiteAt(mem, p, enc, sites[0])
      && ActionsAt(mem, end, classInfo, ttype, sites[0])
      && SitesAt(mem, SiteEnd(p, sites[0]), end, enc, classInfo, ttype, sites[1..])
  }

  ghost predicate ByteAt(mem: seq<byte>, p: int) { 0 <= p < |mem| }

  /** The three parts of the header, and how far each reaches. */
  ghost predicate StartAt(mem: seq<byte>, p: int, t: Lsda) {
    ByteAt(mem, p) && if mem[p] == OMIT then t.lpStartSize == 0 else EncodedAt(mem, p + 1, mem[p], t.lpStart, t.lpStartSize)
  }

  ghost predicate ClassInfoAt(mem: seq<byte>, p: int, t: Lsda) {
    ByteAt(mem, p) && if mem[p] == OMIT then t.offsetBytes == [] else LebAt(mem, p + 1, t.offsetBytes)
  }

  function ClassInfo(mem: seq<byte>, p: int, t: Lsda): int
    requires 0 <= p < |mem|
  {
    if mem[p] == OMIT then 0 else p + 1 + |t.offsetBytes| + ValueU(t.offsetBytes)
  }

  ghost predicate LengthAt(mem: seq<byte>, p: int, t: Lsda) {
    ByteAt(mem, p) && LebAt(mem, p + 1, t.lengthBytes)
  }

  ghost predicate TableAt(mem: seq<byte>, p: int, classInfo: int, ttype: byte, t: Lsda) {
    LengthAt(mem, p, t)
    && var first := p + 1 + |t.lengthBytes|;
    SitesAt(mem, first, first + ValueU(t.lengthBytes) % TWO_TO_THE_32, mem[p], classInfo, ttype, t.sites)
  }

  /** How many bytes the call sites take. */
  function SitesSize(sites: seq<Site>): nat {
    if sites == [] then 0 else SiteEnd(0, sites[0]) + SitesSize(sites[1..])
  }

  lemma {:induction false} SitesFill(mem: seq<byte>, p: int, end: int, enc: byte, classInfo: int, ttype: byte, sites: seq<Site>)
    requires SitesAt(mem, p, end, enc, classInfo, ttype, sites)
    ensures p + SitesSize(sites) == end
    decreases |sites|
  {
    if sites != [] {
      SitesFill(mem, SiteEnd(p, sites[0]), end, enc, classInfo, ttype, sites[1..]);
    }
  }

  /** The length of the table is a 32-bit number: the sites in a table are those within 2^32 bytes,
      and their size is the length given in the header, modulo 2^32. */
  lemma TableIsShort(mem: seq<byte>, p: int, classInfo: int, ttype: byte, t: Lsda)
    requires TableAt(mem, p, classInfo, ttype, t)
    ensures SitesSize(t.sites) < TWO_TO_THE_32 && (ValueU(t.lengthBytes) - SitesSize(t.sites)) % TWO_TO_THE_32 == 0
  {
    var first := p + 1 + |t.lengthBytes|;
    SitesFill(mem, first, first + ValueU(t.lengthBytes) % TWO_TO_THE_32, mem[p], classInfo, ttype, t.sites);
  }

  /** A well-formed area at an address. */
  ghost predicate LsdaAt(mem: seq<byte>, p: int, t: Lsda) {
    StartAt(mem, p, t)
    && var p1 := p + 1 + t.lpStartSize;
    && ClassInfoAt(mem, p1, t)
    && TableAt(mem, p1 + 1 + |t.offsetBytes|, ClassInfo(mem, p1, t), mem[p1], t)
  }

  datatype Answer = Continue | HandlerFound | Install(selector: nat, ip: nat)

  predicate Covers(s: Site, pc: nat) {
    s.pad != 0 && s.start <= pc < (s.start + s.length) % TWO_TO_THE_64
  }

  /** The first site with a landing pad that covers the offset. */
  function FirstCovering(sites: seq<Site>, pc: nat): (k: nat)
    ensures k <= |sites| && (k < |sites| ==> Covers(sites[k], pc)) && forall j :: 0 <= j < k ==> !Covers(sites[j], pc)
  {
    if sites == [] || Covers(sites[0], pc) then 0 else 1 + FirstCovering(sites[1..], pc)
  }

  /** The clause position the actions of a site select; none for a foreign exception. */
  function Selected(s: Site, ours: bool, tag: int): Outcome<nat> {
    if ours && ValueU(s.actionBytes) > 0 then Search(s.chain, tag, 0) else Ok(0)
  }

  function AnswerAt(s: Site, funcStart: nat, ours: bool, tag: int, search: bool): Outcome<Answer> {
    match Selected(s, ours, tag)
    case Aborted => Aborted
    case Undefined => Undefined
    case Ok(n) =>
      Ok(if !search then Install(n, (funcStart + s.pad) % TWO_TO_THE_64) else if n > 0 then HandlerFound else Continue)
  }

  /** The personality routine on an abstract call-site list. */
  function Decide(sites: seq<Site>, pc: nat, funcStart: nat, ours: bool, tag: int, search: bool): Outcome<Answer> {
    var k := FirstCovering(sites, pc);
    if k == |sites| then Ok(Continue) else AnswerAt(sites[k], funcStart, ours, tag, search)
  }

  method ReadStart(mem: seq<byte>, p: int, ghost t: Lsda) returns (next: int)
    requires StartAt(mem, p, t)
    ensures next == p + 1 + t.lpStartSize
  {
    next := p + 1;
    if mem[p] != OMIT {
      var ignored;
      ignored, next := ReadPointer(mem, next, mem[p], p + 1, t.lpStart, t.lpStartSize);
    }
  }

  method ReadClassInfo(mem: seq<byte>, p: int, ghost t: Lsda) returns (ttype: byte, classInfo: int, next: int)
    requires ClassInfoAt(mem, p, t)
    ensures ttype == mem[p] && classInfo == ClassInfo(mem, p, t) && next == p + 1 + |t.offsetBytes|
  {
    ttype, classInfo, next := mem[p], 0, p + 1;
    if ttype != OMIT {
      var offset;
      offset, next := ReadUnsigned(mem, next, p + 1, t.offsetBytes);
      classInfo := next + offset;
    }
  }

  method ReadLength(mem: seq<byte>, p: int, ghost t: Lsda) returns (first: int, end: int)
    requires LengthAt(mem, p, t)
    ensures first == p + 1 + |t.lengthBytes| && end == first + ValueU(t.lengthBytes) % TWO_TO_THE_32
  {
    var length;
    length, first := ReadUnsigned(mem, p + 1, p + 1, t.lengthBytes);
    end := first + length % TWO_TO_THE_32;
  }

  method ReadSite(mem: seq<byte>, p: int, enc: byte, ghost s: Site)
    returns (start: nat, length: nat, pad: nat, action: nat, next: int)
    requires SiteAt(mem, p, enc, s)
    ensures start == s.start && length == s.length && pad == s.pad && action == ValueU(s.actionBytes) && next == SiteEnd(p, s)
  {
    start, next := ReadPointer(mem, p, enc, p, s.start, s.startSize);
    length, next := ReadPointer(mem, next, enc, p + s.startSize, s.length, s.lengthSize);
    pad, next := ReadPointer(mem, next, enc, p + s.startSize + s.lengthSize, s.pad, s.padSize);
    action, next := ReadUnsigned(mem, next, p + s.startSize + s.lengthSize + s.padSize, s.actionBytes);
  }

  /** The actions of a site follow the table. */
  ghost predicate ActionsAt(mem: seq<byte>, end: int, classInfo: int, ttype: byte, s: Site) {
    forall open {:trigger Unseal(open, end)} :: Unseal(open, end) && ValueU(s.actionBytes) > 0 ==>
      ChainAt(mem, end + ValueU(s.actionBytes) - 1, classInfo, ttype, s.chain)
  }

  lemma DecideNext(sites: seq<Site>, pc: nat, funcStart: nat, ours: bool, tag: int, search: bool)
    requires sites != []
    ensures Decide(sites, pc, funcStart, ours, tag, search)
      == if Covers(sites[0], pc) then AnswerAt(sites[0], funcStart, ours, tag, search)
         else Decide(sites[1..], pc, funcStart, ours, tag, search)
  {
    var k := FirstCovering(sites[1..], pc);
    if !Covers(sites[0], pc) && k < |sites| - 1 {
      assert sites[1..][k] == sites[k + 1];
    }
  }

  /** What a site that covers the offset leads to. */
  method Enter(mem: seq<byte>, end: int, classInfo: int, ttype: byte, pad: nat, action: nat, funcStart: nat,
               ours: bool, tag: int, search: bool, ghost s: Site)
    returns (r: Outcome<Answer>)
    requires ActionsAt(mem, end, classInfo, ttype, s) && pad == s.pad && action == if ours then ValueU(s.actionBytes) else 0
    ensures r == AnswerAt(s, funcStart, ours, tag, search)
  {
    var selected := Ok(0);
    if action != 0 {
      assert Unseal(true, end);
      selected := HandleActionValue(mem, ttype, classInfo, end + action - 1, ours, tag, s.chain);
    }
    match selected
    case Aborted => return Aborted;
    case Undefined => return Undefined;
    case Ok(n) =>
      if !search {
        return Ok(Install(n, (funcStart + pad) % TWO_TO_THE_64));
      }
      return Ok(if n > 0 then HandlerFound else Continue);
  }

  method WalkTable(mem: seq<byte>, p: int, classInfo: int, ttype: byte, pc: nat, funcStart: nat,
                   ours: bool, tag: int, search: bool, ghost t: Lsda)
    returns (r: Outcome<Answer>)
    requires TableAt(mem, p, classInfo, ttype, t)
    ensures r == Decide(t.sites, pc, funcStart, ours, tag, search)
  {
    var first, end := ReadLength(mem, p, t);
    r := WalkSites(mem, first, end, mem[p], classInfo, ttype, pc, funcStart, ours, tag, search, t.sites);
  }

  /** The personality routine on the bytes. */
  method HandleLsda(mem: seq<byte>, lsda: int, ip: nat, funcStart: nat, ours: bool, tag: int, search: bool, ghost t: Lsda)
    returns (r: Outcome<Answer>)
    requires lsda != 0 ==> LsdaAt(mem, lsda, t)
    ensures r == if lsda == 0 then Ok(Continue)
                 else Decide(t.sites, (ip - 1 - funcStart) % TWO_TO_THE_64, funcStart, ours, tag, search)
  {
    if lsda == 0 {
      return Ok(Continue);
    }
    var pc := (ip - 1 - funcStart) % TWO_TO_THE_64;
    var p := ReadStart(mem, lsda, t);
    var ttype, classInfo, p2 := ReadClassInfo(mem, p, t);
    r := WalkTable(mem, p2, classInfo, ttype, pc, funcStart, ours, tag, search, t);
  }

  /** One entry of the table: the answer, or on to the next entry. */
  method Visit(mem: seq<byte>, p: int, end: int, enc: byte, classInfo: int, ttype: byte, pc: nat, funcStart: nat,
               ours: bool, tag: int, search: bool, ghost sites: seq<Site>)
    returns (done: bool, r: Outcome<Answer>, next: int)
    requires p < end && SitesAt(mem, p, end, enc, classInfo, ttype, sites)
    ensures sites != []
    ensures done ==> r == Decide(sites, pc, funcStart, ours, tag, search)
    ensures !done ==> SitesAt(mem, next, end, enc, classInfo, ttype, sites[1..])
    ensures !done ==> Decide(sites[1..], pc, funcStart, ours, tag, search) == Decide(sites, pc, funcStart, ours, tag, search)
  {
    ghost var s := sites[0];
    assert SiteAt(mem, p, enc, s) && ActionsAt(mem, end, classInfo, ttype, s);
    assert SitesAt(mem, SiteEnd(p, s), end, enc, classInfo, ttype, sites[1..]);
    DecideNext(sites, pc, funcStart, ours, tag, search);
    var start, length, pad, action;
    start, length, pad, action, next := ReadSite(mem, p, enc, s);
    if !ours {
      action := 0;
    }
    done, r := false, Ok(Continue);
    if pad != 0 && start <= pc < (start + length) % TWO_TO_THE_64 {
      r := Enter(mem, end, classInfo, ttype, pad, action, funcStart, ours, tag, search, s);
      done := true;
    }
  }

  method WalkSites(mem: seq<byte>, first: int, end: int, enc: byte, classInfo: int, ttype: byte, pc: nat, funcStart: nat,
                   ours: bool, tag: int, search: bool, ghost sites: seq<Site>)
    returns (r: Outcome<Answer>)
    requires SitesAt(mem, first, end, enc, classInfo, ttype, sites)
    ensures r == Decide(sites, pc, funcStart, ours, tag, search)
  {
    var p := first;
    ghost var rest, answer := sites, Decide(sites, pc, funcStart, ours, tag, search);
    while p < end
      invariant SitesAt(mem, p, end, enc, classInfo, ttype, rest)
      invariant Decide(rest, pc, funcStart, ours, tag, search) == answer
      decreases |rest|
    {
      var done;
      done, r, p := Visit(mem, p, end, enc, classInfo, ttype, pc, funcStart, ours, tag, search, rest);
      if done {
        return;
      }
      rest := rest[1..];
    }
    assert rest == [];
    return Ok(Continue);
  }

  // ----- The two phases ----------------------------------------------------------------------------------

  /** The k-th site is the first one that has a landing pad and covers the offset.  A handler found in
      the search phase is the one the cleanup phase installs: that site's landing pad, with the
      position of the first matching clause; and it is found exactly for our own exceptions with such
      a clause.  A filter before it aborts both phases. */
  lemma TwoPhases(sites: seq<Site>, pc: nat, funcStart: nat, ours: bool, tag: int, k: nat)
    requires k <= |sites|
    requires forall j :: 0 <= j < k ==>
      sites[j].pad == 0 || pc < sites[j].start || (sites[j].start + sites[j].length) % TWO_TO_THE_64 <= pc
    requires k < |sites| ==> sites[k].pad != 0 && sites[k].start <= pc < (sites[k].start + sites[k].length) % TWO_TO_THE_64
    ensures var search, cleanup := Decide(sites, pc, funcStart, ours, tag, true), Decide(sites, pc, funcStart, ours, tag, false);
      if k == |sites| then search == Ok(Continue) && cleanup == Ok(Continue)
      else if ours && ValueU(sites[k].actionBytes) > 0 && FilterFirst(sites[k].chain, tag) then search == Aborted && cleanup == Aborted
      else
        && cleanup.Ok? && cleanup.value.Install? && cleanup.value.ip == (funcStart + sites[k].pad) % TWO_TO_THE_64
        && (search == Ok(HandlerFound) <==> cleanup.value.selector > 0)
        && (search == Ok(HandlerFound) <==> ours && Catches(sites[k], tag))
        && (search == Ok(HandlerFound) ==> FirstClause(sites[k].chain, tag, cleanup.value.selector))
  {
    var first := FirstCovering(sites, pc);
    assert forall j :: 0 <= j < k ==> !Covers(sites[j], pc);
    assert k < |sites| ==> Covers(sites[k], pc);
    assert first == k;
    if k < |sites| {
      SearchFirst(sites[k].chain, tag, 0);
    }
  }

  predicate Catches(s: Site, tag: int) {
    ValueU(s.actionBytes) > 0 && exists j :: 0 <= j < |s.chain| && s.chain[j].clause == Catch(tag)
  }

  /** n is the position, from 1, of the first clause for the type. */
  predicate FirstClause(chain: seq<Action>, tag: int, n: nat) {
    0 < n <= |chain| && chain[n - 1].clause == Catch(tag) && forall k :: 0 <= k < n - 1 ==> chain[k].clause != Catch(tag)
  }

  /** A foreign exception never finds a handler, and its landing pads get selector 0. */
  lemma ForeignCleansUp(sites: seq<Site>, pc: nat, funcStart: nat, tag: int)
    ensures Decide(sites, pc, funcStart, false, tag, true) == Ok(Continue)
    ensures var cleanup := Decide(sites, pc, funcStart, false, tag, false);
      cleanup.Ok? && cleanup.value != HandlerFound && (cleanup.value.Install? ==> cleanup.value.selector == 0)
      && (cleanup.value.Continue? <==> forall k :: 0 <= k < |sites| ==>
            sites[k].pad == 0 || pc < sites[k].start || (sites[k].start + sites[k].length) % TWO_TO_THE_64 <= pc)
  {
  }
}
