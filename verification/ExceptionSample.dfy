/** One well-formed area, byte by byte: one call site, whose landing pad catches one type. */
module ExceptionSample {
  import opened Leb128
  import opened ExceptionTables

  /** At address 1: no landing-pad base; type infos as 4-byte pointers, counted back from address 25;
      a call-site table of 13 bytes; one action record; the pointer to the type info; the type info. */
  const MEMORY: seq<byte> :=
    [0, 0xff, 3, 21, 3, 13,
     0, 0, 0, 0, 16, 0, 0, 0, 8, 0, 0, 0, 1,
     1, 0,
     25, 0, 0, 0,
     7, 0, 0, 0]

  const AREA: Lsda := Lsda(0, 0, [21], [13], [Site(0, 4, 16, 4, 8, 4, [1], [Action([1], [0], Catch(7))])])

  lemma FourBytes(mem: seq<byte>, p: nat, b: byte)
    requires p + 4 <= |mem| && mem[p] == b && mem[p + 1] == 0 && mem[p + 2] == 0 && mem[p + 3] == 0
    ensures Load(mem, p, 4, false) == Ok(b as nat) && Load(mem, p, 4, true) == Ok(b as nat)
  {
    var e := mem[p..p + 4];
    assert e[1..][1..][1..] == [0] && e[1..][1..][1..][1..] == [];
    assert LittleEndian(e[1..][1..][1..]) == 0;
    assert LittleEndian(e[1..][1..]) == 0;
    assert LittleEndian(e[1..]) == 0;
  }

  lemma OneByte(mem: seq<byte>, p: nat, b: byte)
    requires p < |mem| && mem[p] == b && b < 64
    ensures LebAt(mem, p, [b]) && ValueU([b]) == b && ValueS([b]) == b
  {
    assert [b][1..] == [] && mem[p..p + 1] == [b];
    ValueOne(b);
  }

  lemma PointerHere(mem: seq<byte>, p: nat, b: byte)
    requires p + 4 <= |mem| && mem[p] == b && mem[p + 1] == 0 && mem[p + 2] == 0 && mem[p + 3] == 0
    ensures EncodedAt(mem, p, 3, b as nat, 4)
  {
    FourBytes(mem, p, b);
    assert RawAt(mem, p, 3, b as nat, 4) && Apply(mem, p, 3, b as nat) == Ok(b as nat);
  }

  lemma TypeHere(mem: seq<byte>)
    requires mem == MEMORY
    ensures TypeInfoAt(mem, 25, 3, 1, 7)
  {
    FourBytes(mem, 21, 25);
    FourBytes(mem, 25, 7);
    assert RawAt(mem, 21, 3, 25, 4) && TypeIs(mem, Apply(mem, 21, 3, 25), 7);
  }

  lemma ChainHere(mem: seq<byte>, a: Action)
    requires mem == MEMORY && a == Action([1], [0], Catch(7))
    ensures ChainAt(mem, 19, 25, 3, [a])
  {
    OneByte(mem, 19, 1);
    OneByte(mem, 20, 0);
    TypeHere(mem);
    assert RecordAt(mem, 19, 25, 3, a);
  }

  lemma SiteHere(mem: seq<byte>, s: Site)
    requires mem == MEMORY && s == AREA.sites[0]
    ensures SitesAt(mem, 6, 19, 3, 25, 3, [s])
  {
    PointersHere(mem, s);
    ActionsHere(mem, s);
    assert [s][1..] == [];
  }

  lemma PointersHere(mem: seq<byte>, s: Site)
    requires mem == MEMORY && s == AREA.sites[0]
    ensures SiteAt(mem, 6, 3, s) && SiteEnd(6, s) == 19
  {
    PointerHere(mem, 6, 0);
    PointerHere(mem, 10, 16);
    PointerHere(mem, 14, 8);
    OneByte(mem, 18, 1);
  }

  lemma ActionsHere(mem: seq<byte>, s: Site)
    requires mem == MEMORY && s == AREA.sites[0]
    ensures ActionsAt(mem, 19, 25, 3, s)
  {
    OneByte(mem, 18, 1);
    ChainHere(mem, s.chain[0]);
    assert s.chain == [s.chain[0]];
  }

  lemma HeaderHere(mem: seq<byte>, t: Lsda)
    requires mem == MEMORY && t == AREA
    ensures StartAt(mem, 1, t) && ClassInfoAt(mem, 2, t) && ClassInfo(mem, 2, t) == 25 && mem[2] == 3
  {
    OneByte(mem, 3, 21);
  }

  lemma TableHere(mem: seq<byte>, t: Lsda)
    requires mem == MEMORY && t == AREA
    ensures TableAt(mem, 4, 25, 3, t)
  {
    LengthHere(mem, t);
    SiteHere(mem, t.sites[0]);
    assert t.sites == [t.sites[0]];
  }

  lemma LengthHere(mem: seq<byte>, t: Lsda)
    requires mem == MEMORY && t == AREA
    ensures LengthAt(mem, 4, t) && ValueU(t.lengthBytes) == 13 && |t.lengthBytes| == 1 && mem[4] == 3
  {
    OneByte(mem, 5, 13);
  }

  lemma AreaFrom(mem: seq<byte>, t: Lsda)
    requires t.lpStartSize == 0 && |t.offsetBytes| == 1
    requires StartAt(mem, 1, t) && ClassInfoAt(mem, 2, t) && ClassInfo(mem, 2, t) == 25 && mem[2] == 3
    requires TableAt(mem, 4, 25, 3, t)
    ensures LsdaAt(mem, 1, t)
  {
  }

  /** The bytes are a well-formed area. */
  lemma AreaHere()
    ensures LsdaAt(MEMORY, 1, AREA)
  {
    HeaderHere(MEMORY, AREA);
    TableHere(MEMORY, AREA);
    AreaFrom(MEMORY, AREA);
  }

  /** On them: an exception of type 7 is caught with selector 1, one of another type, or a foreign
      one, only cleaned up after. */
  lemma AreaCatchesSeven(ours: bool, tag: int, funcStart: nat)
    ensures var selector := if ours && tag == 7 then 1 else 0;
      && Decide(AREA.sites, 5, funcStart, ours, tag, true) == Ok(if ours && tag == 7 then HandlerFound else Continue)
      && Decide(AREA.sites, 5, funcStart, ours, tag, false) == Ok(Install(selector, (funcStart + 8) % TWO_TO_THE_64))
  {
    var s := AREA.sites[0];
    OneByte(MEMORY, 18, 1);
    assert s.chain[0].clause == Catch(7) && s.chain[1..] == [];
    assert Search(s.chain, tag, 0) == Ok(if tag == 7 then 1 else 0);
    assert Covers(s, 5) && FirstCovering(AREA.sites, 5) == 0;
  }
}
