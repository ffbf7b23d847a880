/** Nested names that end in an operator: whatever stands before the next E is taken to be one. */
module ItaniumOperators {
  import opened ItaniumNames
  import opened ItaniumExpressions

  /** Text that is read as an operator: no E in it, and not the start of an identifier, of template
      arguments, or of a constructor or destructor. */
  predicate OperatorText(op: string) {
    && op != "" && OneLine(op) && (forall k :: 0 <= k < |op| ==> op[k] != 'E')
    && !IsDigit(op[0]) && op[0] != 'I'
    && !(|op| > 1 && (op[0] == 'C' || op[0] == 'D') && '1' <= op[1] <= '3')
  }

  lemma {:induction false} OtherThen(op: string, s: string)
    requires forall k :: 0 <= k < |op| ==> op[k] != 'E'
    ensures OtherCount(op + ("E" + s)) == |op|
  {
    if op == "" {
      assert op + ("E" + s) == "E" + s;
    } else {
      OtherThen(op[1..], s);
      assert (op + ("E" + s))[1..] == op[1..] + ("E" + s);
    }
  }

  lemma OperatorRead(op: string, s: string)
    requires OperatorText(op) && OneLine(s)
    ensures ParseName(op + ("E" + s)) == Name(op, "E" + s)
  {
    var t := op + ("E" + s);
    OtherThen(op, s);
    assert t[..|op|] == op && t[|op|..] == "E" + s;
    LineWhole("E" + s);
    assert t[0] == op[0] && DigitGroup(t) == 0;
    assert |op| == 1 ==> t[1] == 'E';
  }

  /** The printed parts are read, whatever stands behind them on the line. */
  lemma {:induction false} ThroughParts(ps: Parts, t: string, names: seq<Pair>)
    requires GoodParts(ps) && Follows(t) && t[0] != 'I'
    ensures ParseNames(PrintParts(ps) + t, names) == ParseNames(t, names + Names(ps))
    decreases ps
  {
    match ps
    case NoParts =>
      assert PrintParts(ps) + t == t && names + Names(ps) == names;
    case Parts(head, tail) =>
      PartsBehind(head, tail, t);
      ThroughPart(head, PrintParts(ps) + t, PrintParts(tail) + t, names);
      ThroughParts(tail, t, names + [Named(head)]);
      NamesCons(head, tail, names);
  }

  lemma PartsBehind(head: Part, tail: Parts, t: string)
    requires GoodParts(Parts(head, tail)) && Follows(t) && t[0] != 'I'
    ensures GoodName(head) && GoodArgs(head.args) && GoodParts(tail)
    ensures var more := PrintParts(tail) + t;
      && Follows(more) && more[0] != 'I'
      && PrintParts(Parts(head, tail)) + t == PrintName(head) + (PrintArgs(head.args) + more)
  {
    PartsCons(head, tail);
    TailFollows(tail, t);
    Associates(PrintName(head), PrintArgs(head.args), PrintParts(tail), t);
  }

  lemma TailFollows(tail: Parts, t: string)
    requires GoodParts(tail) && Follows(t) && t[0] != 'I'
    ensures Follows(PrintParts(tail) + t) && (PrintParts(tail) + t)[0] != 'I'
  {
    PartsOneLine(tail);
    if tail.Parts? {
      PartsStart(tail);
    } else {
      assert PrintParts(tail) + t == t;
    }
  }

  lemma ThroughPart(head: Part, whole: string, more: string, names: seq<Pair>)
    requires GoodName(head) && GoodArgs(head.args) && Follows(more) && more[0] != 'I'
    requires whole == PrintName(head) + (PrintArgs(head.args) + more)
    ensures ParseNames(whole, names) == ParseNames(more, names + [Named(head)])
  {
    NameStarts(head);
    ArgsOneLine(head.args);
    NameParsed(head, PrintArgs(head.args) + more);
    AfterName(whole, PrintName(head), head.args, more, names);
    assert Named(head) == (PrintName(head), head.args.Args?);
  }

  /** Parsing a printed nested name with an operator at its end gives its parts, the operator, and the
      rest of the line. */
  lemma OperatorRoundTrip(n: Nested, op: string, s: string)
    requires GoodNested(n) && OperatorText(op)
    requires n.parts.NoParts? ==> op[0] != 'S' && op[0] !in "rVKRO"
    ensures ParseNested(Head(n) + (PrintParts(n.parts) + (op + ("E" + s)))) == Parsed(Names(n.parts) + [(op, false)], Line(s))
  {
    var v := PrintParts(n.parts) + (op + ("E" + s));
    PartsOneLine(n.parts);
    StartsWell(n.parts, op, v);
    AnyStart(n, v);
    FirstLine(PrintParts(n.parts), op, s);
    LineIsOneLine(s);
    var t := op + ("E" + Line(s));
    ThroughParts(n.parts, t, []);
    assert [] + Names(n.parts) == Names(n.parts);
    OperatorLast(op, Line(s), Names(n.parts));
  }

  lemma StartsWell(ps: Parts, op: string, v: string)
    requires GoodParts(ps) && OperatorText(op) && PrintParts(ps) + op <= v
    requires ps.NoParts? ==> op[0] != 'S' && op[0] !in "rVKRO"
    ensures PartsText(v)
  {
    if ps.Parts? {
      PartsStart(ps);
      assert v[0] == PrintParts(ps)[0];
    } else {
      assert PrintParts(ps) + op == op && v[0] == op[0];
      assert op[0] != '\n';
      assert "rVKRO"[0] == 'r' && "rVKRO"[1] == 'V' && "rVKRO"[2] == 'K' && "rVKRO"[3] == 'R' && "rVKRO"[4] == 'O';
    }
  }

  lemma FirstLine(parts: string, op: string, s: string)
    requires OneLine(parts) && OneLine(op)
    ensures Line(parts + (op + ("E" + s))) == parts + (op + ("E" + Line(s)))
  {
    LineApp(parts, op + ("E" + s));
    LineApp(op, "E" + s);
    assert ("E" + s)[1..] == s && Line("E" + s) == "E" + Line(s);
  }

  lemma OperatorLast(op: string, s: string, names: seq<Pair>)
    requires OperatorText(op) && OneLine(s)
    ensures ParseNames(op + ("E" + s), names) == Parsed(names + [(op, false)], s)
  {
    var t := op + ("E" + s);
    OperatorRead(op, s);
    assert t[0] == op[0];
    NameAlone(t, op, "E" + s, names);
    assert ("E" + s)[1..] == s;
  }
}
