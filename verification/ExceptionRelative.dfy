/** A second well-formed area: type infos by pointers relative to their own addresses, call sites in
    signed 2-byte numbers, one of them negative, and a chain that goes back. */
module ExceptionRelative {
  import opened Leb128
  import opened ExceptionTables
  import opened ExceptionSample

  /** At address 1: a landing-pad base, which is read and not used; type infos counted back from
      address 34; a call-site table of 14 bytes with two sites; the action records at 22 and 24, the
      second leading to the first; two relative pointers; the two type infos, 7 and minus 9. */
  const BYTES: seq<byte> :=
    [0, 0x0a, 5, 0, 0x1b, 28, 0x0a, 14,
     0, 0, 4, 0, 2, 0, 0,
     4, 0, 16, 0, 0xfe, 0xff, 3,
     1, 0, 2, 0x7d,
     12, 0, 0, 0, 4, 0, 0, 0,
     7, 0, 0, 0, 0xf7, 0xff, 0xff, 0xff]

  const FIRST: Site := Site(0, 2, 4, 2, 2, 2, [0], [])

  const SECOND: Site := Site(4, 2, 16, 2, TWO_TO_THE_64 - 2, 2, [3], [Action([2], [0x7d], Catch(-9)), Action([1], [0], Catch(7))])

  const RELATIVE: Lsda := Lsda(5, 2, [28], [14], [FIRST, SECOND])

  /** A number in two bytes; minus 2 has the pattern of 2^64 - 2. */
  lemma ShortHere(mem: seq<byte>, p: nat, v: int)
    requires p + 2 <= |mem| && NumberAt(mem, p, 10, v, 2)
    ensures EncodedAt(mem, p, 0x0a, v % TWO_TO_THE_64, 2)
  {
    NumberIsRaw(mem, p, 10, v, 2);
    ApplyIs(mem, p, 0x0a, v);
    assert RawAt(mem, p, 10, v % TWO_TO_THE_64, 2) && Apply(mem, p, 0x0a, v % TWO_TO_THE_64) == Ok(v % TWO_TO_THE_64);
  }

  /** A type info reached from the pointer at p by its distance from there. */
  lemma RelativeHere(mem: seq<byte>, classInfo: nat, index: nat, tag: int)
    requires index > 0 && classInfo >= 4 * index && classInfo <= |mem| < TWO_TO_THE_64
    requires var p := classInfo - 4 * index;
      && mem[p + 1] == 0 && mem[p + 2] == 0 && mem[p + 3] == 0 && mem[p] > 0
      && NumberAt(mem, p + mem[p] as nat, 11, tag, 4)
    ensures TypeInfoAt(mem, classInfo, 0x1b, index, tag)
  {
    var p := classInfo - 4 * index;
    var distance := mem[p] as nat;
    FourBytes(mem, p, mem[p]);
    TypeIsNumber(mem, p + distance, tag);
    assert RawAt(mem, p, 11, distance, 4) && Apply(mem, p, 0x1b, distance) == Ok(p + distance);
  }

  lemma BackHere(mem: seq<byte>, p: nat)
    requires p < |mem| && mem[p] == 0x7d
    ensures LebAt(mem, p, [0x7d]) && ValueS([0x7d]) == -3
  {
    assert mem[p..p + 1] == [0x7d];
    ValueOne(0x7d);
  }

  /** The record at 22, which ends the chain. */
  lemma LastHere(mem: seq<byte>)
    requires mem == BYTES
    ensures RecordAt(mem, 22, 34, 0x1b, Action([1], [0], Catch(7))) && ValueS([0]) == 0
  {
    OneByte(mem, 22, 1);
    OneByte(mem, 23, 0);
    RelativeHere(mem, 34, 1, 7);
  }

  /** The record at 24, which leads three bytes back from its second field. */
  lemma FirstHere(mem: seq<byte>)
    requires mem == BYTES
    ensures RecordAt(mem, 24, 34, 0x1b, Action([2], [0x7d], Catch(-9))) && ValueS([0x7d]) == -3
  {
    OneByte(mem, 24, 2);
    BackHere(mem, 25);
    RelativeHere(mem, 34, 2, -9);
  }

  lemma BothRecords(mem: seq<byte>, a: Action, b: Action)
    requires RecordAt(mem, 24, 34, 0x1b, a) && |a.typeBytes| == 1 && ValueS(a.nextBytes) == -3
    requires RecordAt(mem, 22, 34, 0x1b, b) && ValueS(b.nextBytes) == 0
    ensures ChainAt(mem, 24, 34, 0x1b, [a, b])
  {
    assert [a, b][1..] == [b] && [b][1..] == [];
    assert ChainAt(mem, 22, 34, 0x1b, [b]);
  }

  lemma SecondActions(mem: seq<byte>, s: Site)
    requires mem == BYTES && s == SECOND
    ensures ActionsAt(mem, 22, 34, 0x1b, s)
  {
    OneByte(mem, 21, 3);
    FirstHere(mem);
    LastHere(mem);
    BothRecords(mem, s.chain[0], s.chain[1]);
    assert s.chain == [s.chain[0], s.chain[1]];
  }

  lemma SmallHere(mem: seq<byte>, p: nat, b: byte)
    requires p + 2 <= |mem| && mem[p] == b && mem[p + 1] == 0
    ensures EncodedAt(mem, p, 0x0a, b as nat, 2)
  {
    ShortHere(mem, p, b as int);
  }

  lemma MinusTwoHere(mem: seq<byte>, p: nat)
    requires p + 2 <= |mem| && mem[p] == 0xfe && mem[p + 1] == 0xff
    ensures EncodedAt(mem, p, 0x0a, TWO_TO_THE_64 - 2, 2)
  {
    ShortHere(mem, p, -2);
  }

  lemma SiteOf(mem: seq<byte>, p: nat, s: Site, start: byte, length: byte, action: byte)
    requires p + 7 <= |mem| && mem[p] == start && mem[p + 1] == 0 && mem[p + 2] == length && mem[p + 3] == 0 && mem[p + 6] == action < 64
    requires s.start == start as nat && s.length == length as nat && s.actionBytes == [action]
    requires s.startSize == s.lengthSize == s.padSize == 2 && EncodedAt(mem, p + 4, 0x0a, s.pad, 2)
    ensures SiteAt(mem, p, 0x0a, s) && SiteEnd(p, s) == p + 7 && ValueU(s.actionBytes) == action as nat
  {
    SmallHere(mem, p, start);
    SmallHere(mem, p + 2, length);
    OneByte(mem, p + 6, action);
  }

  lemma FirstSite(mem: seq<byte>, s: Site)
    requires mem == BYTES && s == FIRST
    ensures SiteAt(mem, 8, 0x0a, s) && SiteEnd(8, s) == 15 && ActionsAt(mem, 22, 34, 0x1b, s)
  {
    SmallHere(mem, 12, 2);
    SiteOf(mem, 8, s, 0, 4, 0);
  }

  lemma SecondSite(mem: seq<byte>, s: Site)
    requires mem == BYTES && s == SECOND
    ensures SiteAt(mem, 15, 0x0a, s) && SiteEnd(15, s) == 22
  {
    MinusTwoHere(mem, 19);
    SiteOf(mem, 15, s, 4, 16, 3);
  }

  lemma BothSites(mem: seq<byte>, a: Site, b: Site)
    requires SiteAt(mem, 8, 0x0a, a) && SiteEnd(8, a) == 15 && ActionsAt(mem, 22, 34, 0x1b, a)
    requires SiteAt(mem, 15, 0x0a, b) && SiteEnd(15, b) == 22 && ActionsAt(mem, 22, 34, 0x1b, b)
    ensures SitesAt(mem, 8, 22, 0x0a, 34, 0x1b, [a, b])
  {
    assert [a, b][1..] == [b] && [b][1..] == [];
    assert SitesAt(mem, 15, 22, 0x0a, 34, 0x1b, [b]);
  }

  lemma SitesHere(mem: seq<byte>)
    requires mem == BYTES
    ensures SitesAt(mem, 8, 22, 0x0a, 34, 0x1b, [FIRST, SECOND])
  {
    FirstSite(mem, FIRST);
    SecondSite(mem, SECOND);
    SecondActions(mem, SECOND);
    BothSites(mem, FIRST, SECOND);
  }

  lemma HeaderOf(mem: seq<byte>, t: Lsda)
    requires mem == BYTES && t == RELATIVE
    ensures StartAt(mem, 1, t) && ClassInfoAt(mem, 4, t) && ClassInfo(mem, 4, t) == 34 && mem[4] == 0x1b
    ensures LengthAt(mem, 6, t) && ValueU(t.lengthBytes) == 14 && mem[6] == 0x0a
  {
    SmallHere(mem, 2, 5);
    OneByte(mem, 5, 28);
    OneByte(mem, 7, 14);
  }

  lemma AreaOf(mem: seq<byte>, t: Lsda)
    requires t.lpStartSize == 2 && |t.offsetBytes| == 1 && |t.lengthBytes| == 1
    requires StartAt(mem, 1, t) && ClassInfoAt(mem, 4, t) && ClassInfo(mem, 4, t) == 34 && mem[4] == 0x1b
    requires LengthAt(mem, 6, t) && ValueU(t.lengthBytes) == 14 && mem[6] == 0x0a
    requires SitesAt(mem, 8, 22, 0x0a, 34, 0x1b, t.sites)
    ensures LsdaAt(mem, 1, t)
  {
  }

  /** These bytes, too, are a well-formed area. */
  lemma RelativeArea()
    ensures LsdaAt(BYTES, 1, RELATIVE)
  {
    HeaderOf(BYTES, RELATIVE);
    SitesHere(BYTES);
    AreaOf(BYTES, RELATIVE);
  }

  /** In the second site an exception of type -9 gets selector 1, one of type 7 selector 2, and any
      other is only cleaned up after; the landing pad is two bytes before the function.  The sites cover
      the offsets 0 to 3 and 4 to 19. */
  lemma RelativeCatches(ours: bool, tag: int, funcStart: nat)
    ensures var selector := if !ours then 0 else if tag == -9 then 1 else if tag == 7 then 2 else 0;
      && Decide(RELATIVE.sites, 4, funcStart, ours, tag, true) == Ok(if selector > 0 then HandlerFound else Continue)
      && Decide(RELATIVE.sites, 4, funcStart, ours, tag, false) == Ok(Install(selector, (funcStart - 2) % TWO_TO_THE_64))
    ensures Decide(RELATIVE.sites, 3, funcStart, ours, tag, false) == Ok(Install(0, (funcStart + 2) % TWO_TO_THE_64))
    ensures Decide(RELATIVE.sites, 19, funcStart, ours, tag, false) == Decide(RELATIVE.sites, 4, funcStart, ours, tag, false)
    ensures Decide(RELATIVE.sites, 20, funcStart, ours, tag, false) == Ok(Continue)
  {
    OneByte(BYTES, 14, 0);
    OneByte(BYTES, 21, 3);
    SecondSearch(SECOND.chain, tag);
    FirstOf(FIRST, SECOND, 3);
    FirstOf(FIRST, SECOND, 4);
    FirstOf(FIRST, SECOND, 19);
    FirstOf(FIRST, SECOND, 20);
    assert (funcStart + SECOND.pad) % TWO_TO_THE_64 == (funcStart - 2) % TWO_TO_THE_64;
  }

  lemma SecondSearch(chain: seq<Action>, tag: int)
    requires |chain| == 2 && chain[0].clause == Catch(-9) && chain[1].clause == Catch(7)
    ensures Search(chain, tag, 0) == Ok(if tag == -9 then 1 else if tag == 7 then 2 else 0)
  {
    assert chain[1..][1..] == [] && Search(chain[1..][1..], tag, 2) == Ok(0);
  }

  lemma FirstOf(a: Site, b: Site, pc: nat)
    ensures FirstCovering([a, b], pc) == if Covers(a, pc) then 0 else if Covers(b, pc) then 1 else 2
  {
    assert [a, b][1..] == [b] && [b][1..] == [];
  }
}
