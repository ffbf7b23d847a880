/** Where the parser gives up: template arguments that are expressions, however deep they are, and
    text that is cut off. */
module ItaniumExpressions {
  import opened ItaniumNames

  // ----- Argument lists and names that hold an expression ------------------------------------------------

  /** Arguments the parser can skip, and then one that is an expression or holds one. */
  predicate ComplexList(list: ArgList) {
    list.Arg? && (ComplexArg(list.head) || (GoodArg(list.head) && ComplexList(list.tail)))
  }

  predicate ComplexArg(a: TemplateArg) {
    match a
    case Expression(start, _) => start == 'L' || start == 'X'
    case Pack(list) => ComplexList(list)
    case Inner(name) => ComplexNested(name)
    case _ => false
  }

  /** Parts the parser can read, and then one whose template arguments hold an expression. */
  predicate ComplexParts(ps: Parts) {
    ps.Parts? && GoodName(ps.head)
    && ((ps.head.args.Args? && ComplexList(ps.head.args.list)) || (GoodArgs(ps.head.args) && ComplexParts(ps.tail)))
  }

  predicate GoodName(p: Part) {
    match p
    case Identifier(id, _) => GoodId(id)
    case Special(kind, number, _) => (kind == 'C' || kind == 'D') && '1' <= number <= '3'
  }

  predicate ComplexNested(n: Nested) {
    && (n.substitution.Sequence? ==> AllInSequence(n.substitution.chars))
    && AllQualifiers(n.qualifiers)
    && ComplexParts(n.parts)
  }

  // ----- Skipping what is in front of it ------------------------------------------------------------------

  /** Skipping t meets an expression, whether or not the text after the line is there. */
  predicate Meets(t: string) {
    t != "" && t[0] != '\n' && Skip(t) == SkipTooComplex && Skip(Line(t)) == SkipTooComplex
  }

  lemma LineKeepsFirst(t: string)
    requires t != "" && t[0] != '\n'
    ensures Line(t) == [t[0]] + Line(t[1..]) && Line(t) != "" && Line(t)[0] == t[0]
  {
  }

  lemma LineOfLine(t: string)
    ensures Line(Line(t)) == Line(t)
  {
    LineIsOneLine(t);
    LineWhole(Line(t));
  }

  lemma ExpressionMeets(start: char, text: string, s: string)
    requires start == 'L' || start == 'X'
    ensures Meets([start] + text + s)
  {
    var t := [start] + text + s;
    NoGroups(t);
    LineKeepsFirst(t);
    NoGroups(Line(t));
  }

  /** What skipping an argument leaves, with more lines or without them. */
  predicate SkipsTo(t: string, s: string) {
    Skip(t) == Skip(s) || Skip(t) == Skip(Line(s))
  }

  lemma DigitsGroup(d: string, rest: string)
    requires d != "" && (forall k :: 0 <= k < |d| ==> IsDigit(d[k])) && rest != "" && !IsDigit(rest[0]) && rest[0] != '\n'
    ensures var t := d + rest;
      DigitGroup(t) == |d| && t[..|d|] == d && t[|d|..] == rest
  {
    DigitsThen(d, rest);
    LineKeepsFirst(rest);
  }

  lemma PlainSkips(id: string, s: string)
    requires GoodId(id) && s != "" && s[0] != '\n'
    ensures SkipsTo(Counted(id) + s, s)
  {
    var d := Decimal(|id|);
    DecimalIsNumber(|id|);
    assert Counted(id) + s == d + (id + s);
    DigitsGroup(d, id + s);
    LineApp(id, s);
    SkipGroup(Counted(id) + s, |d|, d, id + Line(s));
    ClipAll(id, Line(s));
  }

  lemma ReferenceSkips(chars: string, s: string)
    requires AllInSequence(chars) && s != "" && s[0] != '\n'
    ensures SkipsTo("S" + chars + "_" + s, s)
  {
    var t := "S" + chars + "_" + s;
    assert t[1..] == chars + ("_" + s);
    SequenceThen(chars, "_" + s);
    assert t[2 + |chars|..] == s;
    LineKeepsFirst(s);
    assert AfterSubstitution(t) == Line(s) && DigitGroup(t) == 0;
  }

  lemma LetterSkips(c: char, s: string)
    requires GoodArg(Letter(c))
    ensures Skip([c] + s) == Skip(s)
  {
    NoGroups([c] + s);
    SkipOne(c, s);
  }

  lemma StandardSkips(c: char, s: string)
    requires 'a' <= c <= 'z'
    ensures Skip(['S', c] + s) == Skip(s)
  {
    var t := [c] + s;
    assert ['S', c] + s == ['S'] + t && (['S'] + t)[1..] == t && SequenceCount(t) == 0;
    assert AfterSubstitution(['S'] + t) == "";
    SkipOne('S', t);
    NoGroups(t);
    SkipOne(c, s);
  }

  lemma PackSkips(list: ArgList, s: string)
    requires GoodList(list)
    ensures SkipsTo(PrintArg(Pack(list)) + s, s)
    decreases list, 2
  {
    PackText(PrintList(list), s);
    NoGroups(PrintArg(Pack(list)) + s);
    ListSkips(list, s);
  }

  lemma InnerSkips(name: Nested, s: string)
    requires GoodNested(name)
    ensures SkipsTo(PrintArg(Inner(name)) + s, s)
  {
    var t := PrintNested(name) + s;
    NoGroups(t);
    NestedRoundTrip(name, s);
  }

  lemma ArgSkips(a: TemplateArg, s: string)
    requires GoodArg(a) && s != "" && s[0] != '\n'
    ensures SkipsTo(PrintArg(a) + s, s)
    decreases a, 3
  {
    match a
    case Letter(c) => LetterSkips(c, s);
    case Standard(c) => StandardSkips(c, s);
    case Plain(id) => PlainSkips(id, s);
    case Reference(chars) => ReferenceSkips(chars, s);
    case Pack(list) => PackSkips(list, s);
    case Inner(name) => InnerSkips(name, s);
  }

  /** A printed list is skipped up to its end, with more lines after it or without them. */
  lemma {:induction false} ListSkips(list: ArgList, s: string)
    requires GoodList(list)
    ensures Skip(PrintList(list) + ("E" + s)) in {Rest(s), Rest(Line(s))}
    decreases list, 1
  {
    match list
    case End =>
      assert PrintList(End) + ("E" + s) == "E" + s && ("E" + s)[1..] == s;
      NoGroups("E" + s);
    case Arg(head, tail) =>
      var more := PrintList(tail) + ("E" + s);
      PrintCons(head, tail, s);
      ListOneLine(tail);
      MoreLine(PrintList(tail), s);
      ArgSkips(head, more);
      ListSkips(tail, s);
      LineIsOneLine(s);
      SkipList(tail, Line(s));
  }

  lemma MoreLine(list: string, s: string)
    requires OneLine(list)
    ensures var more := list + ("E" + s);
      more != "" && more[0] != '\n' && Line(more) == list + ("E" + Line(s))
  {
    LineApp(list, "E" + s);
    LineKeepsFirst("E" + s);
    assert ("E" + s)[1..] == s && ['E'] + Line(s) == "E" + Line(s);
  }

  // ----- Meeting it ----------------------------------------------------------------------------------------

  /** An argument that can be skipped does not hide what comes after it. */
  lemma GoodMeets(a: TemplateArg, s: string)
    requires GoodArg(a) && Meets(s)
    ensures Meets(PrintArg(a) + s)
  {
    ArgSkips(a, s);
    ArgOneLine(a);
    ArgNotEmpty(a);
    LineApp(PrintArg(a), s);
    LineKeepsFirst(s);
    LineIsOneLine(s);
    SkipArg(a, Line(s));
  }

  lemma ArgNotEmpty(a: TemplateArg)
    ensures PrintArg(a) != ""
  {
    match a
    case Plain(id) => DecimalIsNumber(|id|);
    case _ =>
  }

  lemma ListMeets(list: ArgList, s: string)
    requires ComplexList(list)
    ensures Meets(PrintList(list) + s)
    decreases list, 0
  {
    var more := PrintList(list.tail) + s;
    assert PrintList(list) + s == PrintArg(list.head) + more;
    if ComplexArg(list.head) {
      ArgMeets(list.head, more);
    } else {
      ListMeets(list.tail, s);
      GoodMeets(list.head, more);
    }
  }

  lemma ArgMeets(a: TemplateArg, s: string)
    requires ComplexArg(a)
    ensures Meets(PrintArg(a) + s)
    decreases a, 0
  {
    match a
    case Expression(start, text) => ExpressionMeets(start, text, s);
    case Pack(list) =>
      var u := PrintList(list) + ("E" + s);
      ListMeets(list, "E" + s);
      assert PrintArg(a) + s == "I" + u;
      PackMeets(u);
    case Inner(name) =>
      NestedMeets(name, s);
  }

  lemma PackMeets(u: string)
    requires Meets(u)
    ensures Meets("I" + u)
  {
    var t := "I" + u;
    assert t[1..] == u;
    NoGroups(t);
    LineKeepsFirst(t);
    NoGroups(Line(t));
    assert Line(t)[1..] == Line(u);
  }

  lemma NestedMeets(name: Nested, s: string)
    requires ComplexNested(name)
    ensures Meets(PrintNested(name) + s)
    decreases name, 1
  {
    NestedTooComplex(name, s);
    ComplexMeets(PrintNested(name) + s);
  }

  lemma ComplexMeets(t: string)
    requires t != "" && t[0] == 'N' && ParseNested(t) == TooComplexName
    requires Line(t) != "" && Line(t)[0] == 'N' && ParseNested(Line(t)) == TooComplexName
    ensures Meets(t)
  {
    NestedSkips(t);
    NestedSkips(Line(t));
  }

  lemma NestedSkips(t: string)
    requires t != "" && t[0] == 'N' && ParseNested(t) == TooComplexName
    ensures Skip(t) == SkipTooComplex
  {
    NoGroups(t);
  }

  // ----- Names ---------------------------------------------------------------------------------------------

  predicate PartsText(v: string) {
    v != "" && v[0] != '\n' && v[0] != 'S' && !IsQualifier(v[0])
  }

  lemma FirstOf(q: string, v: string) returns (first: string, rest: string)
    requires PartsText(v)
    ensures q + first + rest == q + v && q + (first + rest) == q + v && first + Line(rest) == Line(v)
    ensures first != "" && OneLine(first) && first[0] == v[0]
  {
    first, rest := v[..1], v[1..];
    assert v == first + rest;
    LineApp(first, rest);
  }

  lemma PlainAny(q: string, v: string)
    requires AllQualifiers(q) && PartsText(v)
    ensures Start("N" + (q + v)) == Line(v)
  {
    var first, rest := FirstOf(q, v);
    PlainStart(q, first, rest);
  }

  lemma SubstitutedAny(chars: string, q: string, v: string)
    requires AllInSequence(chars) && AllQualifiers(q) && PartsText(v)
    ensures Start("N" + ("S" + chars + "_" + (q + v))) == Line(v)
  {
    var first, rest := FirstOf(q, v);
    SubstitutedStart(chars, q, first, rest);
  }

  /** What the start of a printed name leaves, whatever its parts hold: their first line. */
  lemma AnyStart(n: Nested, v: string)
    requires (n.substitution.Sequence? ==> AllInSequence(n.substitution.chars)) && PartsText(v)
    requires AllQualifiers(n.qualifiers)
    ensures Start(Head(n) + v) == Line(v)
  {
    HeadThen(n, v);
    match n.substitution
    case NoSubstitution => PlainAny(n.qualifiers, v);
    case Sequence(chars) => SubstitutedAny(chars, n.qualifiers, v);
  }

  lemma HeadThen(n: Nested, v: string)
    ensures Head(n) + v == "N" + (match n.substitution
      case NoSubstitution => n.qualifiers + v
      case Sequence(chars) => "S" + chars + "_" + (n.qualifiers + v))
  {
  }

  /** What comes before the parts. */
  function Head(n: Nested): (h: string)
    ensures h != "" && h[0] == 'N'
  {
    "N" + (match n.substitution case NoSubstitution => "" case Sequence(chars) => "S" + chars + "_") + n.qualifiers
  }

  lemma HeadOneLine(n: Nested)
    requires n.substitution.Sequence? ==> AllInSequence(n.substitution.chars)
    requires AllQualifiers(n.qualifiers)
    ensures OneLine(Head(n))
  {
  }

  function PrintName(p: Part): string {
    match p
    case Identifier(id, _) => Counted(id)
    case Special(kind, number, _) => [kind, number]
  }

  lemma PartsCons(head: Part, tail: Parts)
    ensures PrintParts(Parts(head, tail)) == PrintName(head) + (PrintArgs(head.args) + PrintParts(tail))
  {
  }

  lemma NameStarts(p: Part)
    requires GoodName(p)
    ensures var s := PrintName(p); s != "" && OneLine(s) && (IsDigit(s[0]) || s[0] == 'C' || s[0] == 'D')
  {
    match p
    case Identifier(id, _) => DecimalIsNumber(|id|);
    case Special(_, _, _) =>
  }

  lemma NameParsed(p: Part, s: string)
    requires GoodName(p) && Follows(s)
    ensures ParseName(PrintName(p) + s) == Name(PrintName(p), s)
  {
    match p
    case Identifier(id, _) => ParseIdentifier(id, s);
    case Special(kind, number, _) => ParseSpecial(kind, number, s);
  }

  /** A name whose template arguments hold an expression. */
  lemma NameTooComplex(t: string, name: string, rest: string, names: seq<Pair>)
    requires t != "" && t[0] != 'E' && ParseName(t) == Name(name, rest) && rest != "" && rest[0] == 'I'
    requires Skip(rest[1..]) == SkipTooComplex
    ensures ParseNames(t, names) == TooComplexName
  {
  }

  /** The first line of the printed parts, whatever follows. */
  lemma PartsTooComplex(ps: Parts, s: string, names: seq<Pair>)
    requires ComplexParts(ps)
    ensures ParseNames(Line(PrintParts(ps) + s), names) == TooComplexName
    decreases ps, 0
  {
    var head, tail := ps.head, ps.tail;
    PartsLine(head, tail, s);
    if head.args.Args? && ComplexList(head.args.list) {
      HeadTooComplex(head, PrintParts(tail) + s, names);
    } else {
      PartsTooComplex(tail, s, names + [(PrintName(head), head.args.Args?)]);
      TailTooComplex(head, tail, s, names);
    }
  }

  lemma PartsLine(head: Part, tail: Parts, s: string)
    requires GoodName(head)
    ensures Line(PrintParts(Parts(head, tail)) + s) == PrintName(head) + Line(PrintArgs(head.args) + (PrintParts(tail) + s))
  {
    PartsCons(head, tail);
    NameStarts(head);
    LineBehind(PrintName(head), PrintArgs(head.args), PrintParts(tail), s);
  }

  lemma LineBehind(name: string, args: string, tail: string, s: string)
    requires OneLine(name)
    ensures Line(name + (args + tail) + s) == name + Line(args + (tail + s))
  {
    Associates(name, args, tail, s);
    LineApp(name, args + (tail + s));
  }

  lemma HeadTooComplex(head: Part, more: string, names: seq<Pair>)
    requires GoodName(head) && head.args.Args? && ComplexList(head.args.list)
    ensures ParseNames(PrintName(head) + Line(PrintArgs(head.args) + more), names) == TooComplexName
  {
    var u := PrintList(head.args.list) + ("E" + more);
    ListMeets(head.args.list, "E" + more);
    PackText(PrintList(head.args.list), more);
    ArgsTooComplex(head, u, names);
  }

  lemma ArgsTooComplex(head: Part, u: string, names: seq<Pair>)
    requires GoodName(head) && Meets(u)
    ensures ParseNames(PrintName(head) + Line("I" + u), names) == TooComplexName
  {
    var name := PrintName(head);
    var rest := Line("I" + u);
    LineKeepsFirst("I" + u);
    assert ("I" + u)[1..] == u && rest[1..] == Line(u);
    LineIsOneLine("I" + u);
    NameStarts(head);
    NameParsed(head, rest);
    NameTooComplex(name + rest, name, rest, names);
  }

  lemma TailTooComplex(head: Part, tail: Parts, s: string, names: seq<Pair>)
    requires GoodName(head) && GoodArgs(head.args) && ComplexParts(tail)
    requires ParseNames(Line(PrintParts(tail) + s), names + [(PrintName(head), head.args.Args?)]) == TooComplexName
    ensures ParseNames(PrintName(head) + Line(PrintArgs(head.args) + (PrintParts(tail) + s)), names) == TooComplexName
  {
    var name, args, more := PrintName(head), PrintArgs(head.args), PrintParts(tail) + s;
    NameStarts(head);
    NameStarts(tail.head);
    PartsCons(tail.head, tail.tail);
    ArgsOneLine(head.args);
    LineApp(args, more);
    LineKeepsFirst(more);
    LineIsOneLine(more);
    NameParsed(head, args + Line(more));
    AfterName(name + (args + Line(more)), name, head.args, Line(more), names);
  }

  /** Parsing a printed nested name that holds an expression, on whatever line, gives up with the
      exception for names that are too complex. */
  lemma NestedTooComplex(n: Nested, s: string)
    requires ComplexNested(n)
    ensures var t := PrintNested(n) + s;
      && t != "" && t[0] == 'N' && ParseNested(t) == TooComplexName
      && Line(t) != "" && Line(t)[0] == 'N' && ParseNested(Line(t)) == TooComplexName
    decreases n, 0
  {
    var v := PrintParts(n.parts) + ("E" + s);
    assert PrintNested(n) + s == Head(n) + v;
    NameStarts(n.parts.head);
    PartsCons(n.parts.head, n.parts.tail);
    HeadOneLine(n);
    LineApp(Head(n), v);
    LineKeepsFirst(v);
    LineOfLine(v);
    AnyStart(n, v);
    AnyStart(n, Line(v));
    PartsTooComplex(n.parts, "E" + s, []);
  }

  /** Skipping template arguments that hold an expression, whatever follows, gives up, too. */
  lemma ListTooComplex(list: ArgList, s: string)
    requires ComplexList(list)
    ensures Skip(PrintList(list) + s) == SkipTooComplex
  {
    ListMeets(list, s);
  }

  // ----- Text that is cut off -------------------------------------------------------------------------------

  lemma PlainAtEnd(id: string)
    requires GoodId(id)
    ensures Skip(Counted(id)) == Unfinished
  {
    var d := Decimal(|id|);
    DecimalIsNumber(|id|);
    DigitsGroup(d, id);
    LineWhole(id);
    SkipGroup(d + id, |d|, d, id);
    assert id[Clip(|id|, id)..] == "";
  }

  lemma StandardAtEnd(c: char)
    requires 'a' <= c <= 'z'
    ensures Skip(['S', c]) == Unfinished
  {
    StandardSkips(c, "");
    assert ['S', c] + "" == ['S', c];
  }

  /** An argument other than a substitution, with nothing after it. */
  lemma ArgAtEnd(a: TemplateArg)
    requires GoodArg(a) && !a.Reference?
    ensures Skip(PrintArg(a)) == Unfinished
  {
    assert PrintArg(a) + "" == PrintArg(a) && Skip("") == Unfinished && Line("") == "";
    match a
    case Letter(c) => LetterSkips(c, "");
    case Standard(c) => StandardAtEnd(c);
    case Plain(id) => PlainAtEnd(id);
    case Pack(list) => PackSkips(list, "");
    case Inner(name) => InnerSkips(name, "");
  }

  /** The last argument is not a substitution, which would be read in another way. */
  predicate CutAfter(list: ArgList) {
    list.Arg? && if list.tail.End? then !list.head.Reference? else CutAfter(list.tail)
  }

  /** Without the E that ends it, an argument list is not skipped. */
  lemma {:induction false} ListCut(list: ArgList)
    requires GoodList(list) && CutAfter(list)
    ensures Skip(PrintList(list)) == Unfinished
    decreases list
  {
    var more := PrintList(list.tail);
    if list.tail.End? {
      assert PrintList(list) == PrintArg(list.head) + "" == PrintArg(list.head);
      ArgAtEnd(list.head);
    } else {
      ListCut(list.tail);
      ListOneLine(list.tail);
      ArgNotEmpty(list.tail.head);
      SkipArg(list.head, more);
    }
  }

  /** Without its E, a nested name that ends in an identifier is not read. */
  lemma {:induction false} PartsCut(ps: Parts, names: seq<Pair>)
    requires GoodParts(ps) && EndsInIdentifier(ps)
    ensures ParseNames(PrintParts(ps), names) == Failed
    decreases ps
  {
    var head, tail := ps.head, ps.tail;
    PartsCons(head, tail);
    if tail.NoParts? {
      assert PrintParts(ps) == Counted(head.id) + ("" + "") == Counted(head.id);
      LastCut(head.id, names);
    } else {
      PartsCut(tail, names + [(PrintName(head), head.args.Args?)]);
      TailLine(tail);
      BeforeCut(head, PrintParts(tail), names);
    }
  }

  lemma LastCut(id: string, names: seq<Pair>)
    requires GoodId(id)
    ensures ParseNames(Counted(id), names) == Failed
  {
    IdentifierAtEnd(id);
    DecimalIsNumber(|id|);
    assert ParseNames("", names + [(Counted(id), false)]) == Failed;
  }

  lemma TailLine(tail: Parts)
    requires GoodParts(tail) && tail.Parts?
    ensures Follows(PrintParts(tail)) && PrintParts(tail)[0] != 'I'
  {
    PartsOneLine(tail);
    PartsStart(tail);
  }

  lemma BeforeCut(head: Part, more: string, names: seq<Pair>)
    requires GoodName(head) && GoodArgs(head.args) && Follows(more) && more[0] != 'I'
    requires ParseNames(more, names + [(PrintName(head), head.args.Args?)]) == Failed
    ensures ParseNames(PrintName(head) + (PrintArgs(head.args) + more), names) == Failed
  {
    NameStarts(head);
    ArgsOneLine(head.args);
    NameParsed(head, PrintArgs(head.args) + more);
    AfterName(PrintName(head) + (PrintArgs(head.args) + more), PrintName(head), head.args, more, names);
  }

  predicate EndsInIdentifier(ps: Parts) {
    ps.Parts? && if ps.tail.NoParts? then ps.head.Identifier? && ps.head.args.NoArgs? else EndsInIdentifier(ps.tail)
  }

  lemma IdentifierAtEnd(id: string)
    requires GoodId(id)
    ensures ParseName(Counted(id)) == Name(Counted(id), "")
  {
    var d := Decimal(|id|);
    DecimalIsNumber(|id|);
    DigitsGroup(d, id);
    LineWhole(id);
    assert id[..Clip(|id|, id)] == id && id[Clip(|id|, id)..] == "";
  }
}
