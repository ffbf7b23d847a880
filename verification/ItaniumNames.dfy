/** The parser for nested names in the Itanium mangling: its regular expressions, the mutual
    recursion of names and template arguments, and what it reads back. */
module ItaniumNames {
  type Pair = (string, bool)

  datatype NameResult = Name(name: string, rest: string) | NoName

  datatype SkipResult = Rest(rest: string) | Unfinished | SkipTooComplex

  datatype NestedResult = Parsed(names: seq<Pair>, rest: string) | Failed | TooComplexName

  // ----- The regular expressions ----------------------------------------------------------------

  predicate IsDigit(c: char) { '0' <= c <= '9' }

  /** What .+ matches from the start of a string, if anything: up to the end of the line. */
  function Line(s: string): (r: string)
    ensures |r| <= |s| && r <= s
  {
    if s == "" || s[0] == '\n' then "" else [s[0]] + Line(s[1..])
  }

  predicate OneLine(s: string) {
    forall k :: 0 <= k < |s| ==> s[k] != '\n'
  }

  /** The string up to the end of a line. */
  predicate UpToLine(t: string, s: string) {
    t <= s && (|t| == |s| || s[|t|] == '\n')
  }

  function DigitCount(s: string): (n: nat)
    ensures n <= |s| && forall k :: 0 <= k < n ==> IsDigit(s[k])
  {
    if s != "" && IsDigit(s[0]) then 1 + DigitCount(s[1..]) else 0
  }

  function Number(digits: string): nat
    requires forall k :: 0 <= k < |digits| ==> IsDigit(digits[k])
  {
    if digits == "" then 0
    else
      assert IsDigit(digits[|digits| - 1]);
      10 * Number(digits[..|digits| - 1]) + (digits[|digits| - 1] as int - '0' as int)
  }

  /** (\d+)(.+): all the digits if something follows them on the line, else all but the last.
      The length of the first group; 0 if there is no match. */
  function DigitGroup(s: string): (n: nat)
    ensures n < |s| || n == 0
  {
    var d := DigitCount(s);
    if d == 0 then 0 else if Line(s[d..]) != "" then d else d - 1
  }

  /** S[A-Z0-9]*_(.+): what the group holds; empty if there is no match. */
  function AfterSubstitution(s: string): (r: string)
    ensures r != "" ==> |r| + 2 <= |s|
  {
    if s == "" || s[0] != 'S' then ""
    else
      var k := SequenceCount(s[1..]);
      if 1 + k < |s| && s[1 + k] == '_' then Line(s[2 + k..]) else ""
  }

  predicate InSequence(c: char) { 'A' <= c <= 'Z' || IsDigit(c) }

  function SequenceCount(s: string): (n: nat)
    ensures n <= |s|
  {
    if s != "" && InSequence(s[0]) then 1 + SequenceCount(s[1..]) else 0
  }

  predicate IsQualifier(c: char) { c == 'r' || c == 'V' || c == 'K' || c == 'R' || c == 'O' }

  function QualifierCount(s: string): (n: nat)
    ensures n <= |s|
  {
    if s != "" && IsQualifier(s[0]) then 1 + QualifierCount(s[1..]) else 0
  }

  /** [rVKRO]*(.+): what the group holds: what follows the qualifiers, or the last of them if nothing
      does; the string itself if there is no match. */
  function AfterQualifiers(s: string): (r: string)
    ensures |r| <= |s|
  {
    var k := QualifierCount(s);
    if Line(s[k..]) != "" then Line(s[k..]) else if k > 0 then s[k - 1..k] else s
  }

  function OtherCount(s: string): (n: nat)
    ensures n <= |s|
  {
    if s != "" && s[0] != 'E' then 1 + OtherCount(s[1..]) else 0
  }

  /** The last place before n, from 1 on, without a newline; 0 if there is none. */
  function LastVisible(s: string, n: nat): (k: nat)
    requires n <= |s|
    ensures k == 0 || (0 < k < n && s[k] != '\n')
  {
    if n <= 1 then 0 else if s[n - 1] != '\n' then n - 1 else LastVisible(s, n - 1)
  }

  /** ([^E]+)(.+): the length of the first group; 0 if there is no match. */
  function OtherGroup(s: string): (n: nat)
    ensures n == 0 || (n < |s| && s[n] != '\n')
  {
    var m := OtherCount(s);
    if m == 0 then 0 else if m < |s| && s[m] != '\n' then m else LastVisible(s, m)
  }

  function Clip(n: nat, s: string): nat {
    if n < |s| then n else |s|
  }

  // ----- What they match, character by character --------------------------------------------------

  /** Each class is matched as often as possible. */
  lemma {:induction false} DigitsExact(s: string)
    ensures var d := DigitCount(s); (forall k :: 0 <= k < d ==> '0' <= s[k] <= '9') && (d < |s| ==> !('0' <= s[d] <= '9'))
  {
    if s != "" && IsDigit(s[0]) {
      DigitsExact(s[1..]);
    }
  }

  lemma {:induction false} SequenceExact(s: string)
    ensures var n := SequenceCount(s);
      && (forall k :: 0 <= k < n ==> 'A' <= s[k] <= 'Z' || '0' <= s[k] <= '9')
      && (n < |s| ==> !('A' <= s[n] <= 'Z' || '0' <= s[n] <= '9'))
  {
    if s != "" && InSequence(s[0]) {
      SequenceExact(s[1..]);
    }
  }

  lemma {:induction false} QualifiersCounted(s: string)
    ensures var q := QualifierCount(s); (forall k :: 0 <= k < q ==> s[k] in "rVKRO") && (q < |s| ==> s[q] !in "rVKRO")
  {
    if s != "" && IsQualifier(s[0]) {
      QualifiersCounted(s[1..]);
    }
  }

  /** A substitution is found exactly if capital letters and digits are followed by an underscore with
      more of the line behind it. */
  lemma SubstitutionExact(chars: string, c: char, s: string)
    requires (forall j :: 0 <= j < |chars| ==> 'A' <= chars[j] <= 'Z' || '0' <= chars[j] <= '9')
    requires !('A' <= c <= 'Z' || '0' <= c <= '9')
    ensures AfterSubstitution("S" + (chars + ([c] + s))) == if c == '_' then Line(s) else ""
  {
    var u := chars + ([c] + s);
    SequenceExact(u);
    assert u[|chars|] == c;
    assert SequenceCount(u) == |chars|;
    assert ("S" + u)[1..] == u && ("S" + u)[2 + |chars|..] == s;
  }

  /** All qualifiers are dropped if something else follows them on the line. */
  lemma QualifiersExact(s: string, k: nat)
    requires k < |s| && (forall j :: 0 <= j < k ==> s[j] in "rVKRO") && s[k] !in "rVKRO" && s[k] != '\n'
    ensures AfterQualifiers(s) == Line(s[k..])
  {
    QualifiersCounted(s);
    assert s[k..][0] == s[k];
  }

  // ----- The parser as functions --------------------------------------------------------------------

  /** parse_itanium_name. */
  function ParseName(s: string): (r: NameResult)
    ensures r.Name? ==> r.name != "" && |r.rest| < |s|
  {
    var d := DigitGroup(s);
    if d > 0 then
      DigitsAre(s, d);
      var group := Line(s[d..]);
      var n := Clip(Number(s[..d]), group);
      Name(s[..d] + group[..n], group[n..])
    else if |s| > 2 && (s[0] == 'C' || s[0] == 'D') && '1' <= s[1] <= '3' && Line(s[2..]) != "" then
      Name(s[..2], Line(s[2..]))
    else if OtherGroup(s) > 0 then Name(s[..OtherGroup(s)], Line(s[OtherGroup(s)..]))
    else NoName
  }

  lemma DigitsAre(s: string, d: nat)
    requires d == DigitGroup(s)
    ensures d <= |s| && forall k :: 0 <= k < d ==> IsDigit(s[..d][k])
  {
  }

  /** The loop of skip_itanium_template, from some point on. */
  function Skip(s: string): (r: SkipResult)
    ensures r.Rest? ==> |r.rest| < |s|
    decreases |s|, 1
  {
    if s == "" then Unfinished
    else
      var d := DigitGroup(s);
      if d > 0 then
        DigitsAre(s, d);
        var group := Line(s[d..]);
        Skip(group[Clip(Number(s[..d]), group)..])
      else if AfterSubstitution(s) != "" then Skip(AfterSubstitution(s))
      else if s[0] == 'I' then
        match Skip(s[1..])
        case Rest(rest) => Skip(rest)
        case other => other
      else if s[0] == 'N' then
        match ParseNested(s)
        case Parsed(_, rest) => Skip(rest)
        case Failed => Unfinished
        case TooComplexName => SkipTooComplex
      else if s[0] == 'L' || s[0] == 'X' then SkipTooComplex
      else if s[0] == 'E' then Rest(s[1..])
      else Skip(s[1..])
  }

  /** What is left of a nested name after its N, a substitution and the qualifiers. */
  function Start(s: string): (r: string)
    requires s != "" && s[0] == 'N'
    ensures |r| < |s|
  {
    AfterQualifiers(if AfterSubstitution(s[1..]) != "" then AfterSubstitution(s[1..]) else s[1..])
  }

  /** parse_itanium_nested_name. */
  function ParseNested(s: string): (r: NestedResult)
    requires s != "" && s[0] == 'N'
    ensures r.Parsed? ==> |r.rest| < |s|
    decreases |s|, 0
  {
    ParseNames(Start(s), [])
  }

  /** Its loop. */
  function ParseNames(s: string, names: seq<Pair>): (r: NestedResult)
    ensures r.Parsed? ==> |r.rest| < |s|
    decreases |s|, 0
  {
    if s == "" then Failed
    else if s[0] == 'E' then Parsed(names, s[1..])
    else match ParseName(s)
      case NoName => Failed
      case Name(name, rest) =>
        if rest != "" && rest[0] == 'I' then
          match Skip(rest[1..])
          case Rest(after) => ParseNames(after, names + [(name, true)])
          case Unfinished => Failed
          case SkipTooComplex => TooComplexName
        else ParseNames(rest, names + [(name, false)])
  }

  // ----- The parser as written -------------------------------------------------------------------------

  /** A part of the string that could be a name comes before something visible: there is no E in it. */
  predicate Nameable(s: string, k: nat) {
    0 < k < |s| && s[k] != '\n' && forall j :: 0 <= j < k ==> s[j] != 'E'
  }

  lemma {:induction false} LineEnds(s: string)
    ensures |Line(s)| == |s| || s[|Line(s)|] == '\n'
  {
    if s != "" && s[0] != '\n' {
      LineEnds(s[1..]);
    }
  }

  lemma {:induction false} OtherCounted(s: string)
    ensures (forall j :: 0 <= j < OtherCount(s) ==> s[j] != 'E') && (OtherCount(s) < |s| ==> s[OtherCount(s)] == 'E')
  {
    if s != "" && s[0] != 'E' {
      OtherCounted(s[1..]);
    }
  }

  lemma {:induction false} LastVisibleIs(s: string, n: nat)
    requires n <= |s| && LastVisible(s, n) == 0
    ensures forall k :: 0 < k < n ==> s[k] == '\n'
  {
    if n > 1 {
      LastVisibleIs(s, n - 1);
    }
  }

  /** The last expression matches exactly if there is something it could match. */
  lemma OtherGroupExact(s: string)
    ensures OtherGroup(s) > 0 ==> Nameable(s, OtherGroup(s))
    ensures OtherGroup(s) == 0 ==> forall k :: !Nameable(s, k)
  {
    var m := OtherCount(s);
    OtherCounted(s);
    if m > 0 && OtherGroup(s) == 0 {
      LastVisibleIs(s, m);
      assert m == |s|;
    }
  }

  lemma {:induction false} LastVisibleLongest(s: string, n: nat)
    requires n <= |s|
    ensures forall k :: LastVisible(s, n) < k < n ==> s[k] == '\n'
  {
    if n > 1 {
      LastVisibleLongest(s, n - 1);
    }
  }

  /** What it matches is as long as possible. */
  lemma OtherGroupLongest(s: string)
    ensures forall k :: k > OtherGroup(s) ==> !Nameable(s, k)
  {
    OtherCounted(s);
    LastVisibleLongest(s, OtherCount(s));
  }

  lemma ThenLine(s: string, k: nat)
    requires k <= |s|
    ensures UpToLine(s[..k] + Line(s[k..]), s)
  {
    var t := s[..k] + Line(s[k..]);
    LineEnds(s[k..]);
    assert s == s[..k] + s[k..];
    if |t| < |s| {
      assert s[|t|] == s[k..][|t| - k];
    }
  }

  lemma Clipped(s: string, d: nat, n: nat)
    requires d <= |s| && n <= |Line(s[d..])|
    ensures (s[..d] + Line(s[d..])[..n]) + Line(s[d..])[n..] == s[..d] + Line(s[d..])
  {
    ClippedGroup(s[..d], Line(s[d..]), n);
  }

  lemma ClippedGroup(head: string, group: string, n: nat)
    requires n <= |group|
    ensures (head + group[..n]) + group[n..] == head + group
  {
  }

  /** Nothing is lost or moved: name and rest together are the string up to the end of a line; and
      there is a name unless no part of the string could be one. */
  lemma NameFacts(s: string)
    ensures ParseName(s).Name? ==> UpToLine(ParseName(s).name + ParseName(s).rest, s)
    ensures ParseName(s).NoName? <==> forall k :: !Nameable(s, k)
  {
    var d := DigitGroup(s);
    OtherGroupExact(s);
    if d > 0 {
      DigitsAre(s, d);
      Clipped(s, d, Clip(Number(s[..d]), Line(s[d..])));
      ThenLine(s, d);
      DigitGroupNameable(s, d);
    } else if |s| > 2 && (s[0] == 'C' || s[0] == 'D') && '1' <= s[1] <= '3' && Line(s[2..]) != "" {
      ThenLine(s, 2);
      assert s[2..][0] == s[2];
      assert Nameable(s, 2);
    } else if OtherGroup(s) > 0 {
      ThenLine(s, OtherGroup(s));
    }
  }

  /** A number of d digits and more of the line up to e: all digits if something else follows them,
      all but the last one otherwise. */
  predicate NumberThen(s: string, d: nat, e: nat) {
    && 0 < d < e <= |s| && (forall k :: 0 <= k < d ==> IsDigit(s[k])) && OneLine(s[d..e])
    && (e == |s| || s[e] == '\n') && (!IsDigit(s[d]) || d + 1 == e)
  }

  lemma NumberExact(s: string, d: nat, e: nat)
    requires NumberThen(s, d, e)
    ensures DigitGroup(s) == d && Line(s[d..]) == s[d..e]
  {
    DigitsExact(s);
    LineApp(s[d..e], s[e..]);
    assert s[d..] == s[d..e] + s[e..];
    NoLine(s, e);
    if IsDigit(s[d]) {
      NoLine(s, d + 1);
    } else {
      assert s[d..][0] == s[d];
    }
  }

  lemma NoLine(s: string, e: nat)
    requires e <= |s| && (e == |s| || s[e] == '\n')
    ensures Line(s[e..]) == ""
  {
    assert e < |s| ==> s[e..][0] == s[e];
  }

  lemma SplitAt(s: string, d: nat, n: nat, e: nat)
    requires d + n <= e <= |s|
    ensures s[..d] + s[d..e][..n] == s[..d + n] && s[d..e][n..] == s[d + n..e]
  {
  }

  lemma ReadGroup(s: string, d: nat, digits: string, group: string)
    requires 0 < d <= |s| && DigitGroup(s) == d && s[..d] == digits && Line(s[d..]) == group
    requires forall k :: 0 <= k < |digits| ==> IsDigit(digits[k])
    ensures var n := Clip(Number(digits), group); ParseName(s) == Name(digits + group[..n], group[n..])
  {
  }

  lemma NumberedName(s: string, d: nat, e: nat)
    requires NumberThen(s, d, e)
    ensures var m := if d + Number(s[..d]) < e then d + Number(s[..d]) else e;
      ParseName(s) == Name(s[..m], s[m..e])
  {
    NumberExact(s, d, e);
    ReadGroup(s, d, s[..d], s[d..e]);
    SplitAt(s, d, Clip(Number(s[..d]), s[d..e]), e);
  }

  /** A number is read with as many characters as it says, or as are left on the line. */
  ghost predicate CountedOut(s: string, r: NameResult) {
    forall d: nat, e: nat {:trigger NumberThen(s, d, e)} :: NumberThen(s, d, e) ==>
      var m := if d + Number(s[..d]) < e then d + Number(s[..d]) else e;
      r == Name(s[..m], s[m..e])
  }

  lemma NumberedNames(s: string)
    ensures CountedOut(s, ParseName(s))
  {
    forall d: nat, e: nat | NumberThen(s, d, e)
      ensures var m := if d + Number(s[..d]) < e then d + Number(s[..d]) else e;
        ParseName(s) == Name(s[..m], s[m..e])
    {
      NumberedName(s, d, e);
    }
  }

  /** The start of a constructor or destructor. */
  predicate SpecialStart(s: string) {
    |s| > 2 && (s[0] == 'C' || s[0] == 'D') && (s[1] == '1' || s[1] == '2' || s[1] == '3') && s[2] != '\n'
  }

  /** Constructors and destructors are recognised, and anything else is as long as it can be. */
  lemma OtherNames(s: string)
    ensures var r := ParseName(s);
      && (SpecialStart(s) ==> r.Name? && r.name == s[..2])
      && (r.Name? && !IsDigit(s[0]) && !SpecialStart(s) ==>
            Nameable(s, |r.name|) && forall k :: k > |r.name| ==> !Nameable(s, k))
  {
    OtherGroupExact(s);
    OtherGroupLongest(s);
    assert |s| > 2 ==> s[2..][0] == s[2];
  }

  lemma DigitGroupNameable(s: string, d: nat)
    requires d == DigitGroup(s) && d > 0
    ensures Nameable(s, d)
  {
    var c := DigitCount(s);
    if d < c {
      assert IsDigit(s[d]);
    } else {
      assert s[d..][0] == s[d];
    }
    forall j | 0 <= j < d ensures s[j] != 'E' {
      assert IsDigit(s[j]);
    }
  }

  method ParseItaniumName(arg: string) returns (r: NameResult)
    ensures r == ParseName(arg)
    ensures r.NoName? <==> forall k :: !Nameable(arg, k)
    ensures r.Name? ==> r.name != "" && UpToLine(r.name + r.rest, arg)
    ensures CountedOut(arg, r)
    ensures SpecialStart(arg) ==> r.Name? && r.name == arg[..2]
    ensures r.Name? && !IsDigit(arg[0]) && !SpecialStart(arg) ==>
      Nameable(arg, |r.name|) && forall k :: k > |r.name| ==> !Nameable(arg, k)
  {
    NameFacts(arg);
    NumberedNames(arg);
    OtherNames(arg);
    var d := DigitGroup(arg);
    if d > 0 {
      DigitsAre(arg, d);
      var group := Line(arg[d..]);
      var n := Clip(Number(arg[..d]), group);
      return Name(arg[..d] + group[..n], group[n..]);
    }
    if |arg| > 2 && (arg[0] == 'C' || arg[0] == 'D') && '1' <= arg[1] <= '3' && Line(arg[2..]) != "" {
      return Name(arg[..2], Line(arg[2..]));
    }
    var k := OtherGroup(arg);
    if k > 0 {
      return Name(arg[..k], Line(arg[k..]));
    }
    return NoName;
  }

  method SkipItaniumTemplate(arg: string) returns (r: SkipResult)
    requires arg != "" && arg[0] == 'I'
    ensures r == Skip(arg[1..])
    decreases |arg|
  {
    var tmp := arg[1..];
    while tmp != ""
      invariant Skip(tmp) == Skip(arg[1..]) && |tmp| < |arg|
      decreases |tmp|
    {
      var d := DigitGroup(tmp);
      if d > 0 {
        DigitsAre(tmp, d);
        var group := Line(tmp[d..]);
        tmp := group[Clip(Number(tmp[..d]), group)..];
        continue;
      }
      var after := AfterSubstitution(tmp);
      if after != "" {
        tmp := after;
      } else if tmp[0] == 'I' {
        var inner := SkipItaniumTemplate(tmp);
        if !inner.Rest? {
          return inner;
        }
        tmp := inner.rest;
      } else if tmp[0] == 'N' {
        var nested := ParseItaniumNestedName(tmp);
        match nested {
          case Failed => return Unfinished;
          case TooComplexName => return SkipTooComplex;
          case Parsed(_, rest) => tmp := rest;
        }
      } else if tmp[0] == 'L' || tmp[0] == 'X' {
        return SkipTooComplex;
      } else if tmp[0] == 'E' {
        return Rest(tmp[1..]);
      } else {
        tmp := tmp[1..];
      }
    }
    return Unfinished;
  }

  method ParseItaniumNestedName(arg: string) returns (r: NestedResult)
    requires arg != "" && arg[0] == 'N'
    ensures r == ParseNested(arg)
    decreases |arg|
  {
    var ret := [];
    var tmp := AfterSubstitution(arg[1..]);
    if tmp == "" {
      tmp := arg[1..];
    }
    tmp := AfterQualifiers(tmp);
    while tmp != ""
      invariant ParseNames(tmp, ret) == ParseNested(arg) && |tmp| < |arg|
      decreases |tmp|
    {
      if tmp[0] == 'E' {
        return Parsed(ret, tmp[1..]);
      }
      var part := ParseItaniumName(tmp);
      if part.NoName? {
        return Failed;
      }
      tmp := part.rest;
      var isTemplate := false;
      if tmp != "" && tmp[0] == 'I' {
        var skipped := SkipItaniumTemplate(tmp);
        match skipped {
          case Unfinished => return Failed;
          case SkipTooComplex => return TooComplexName;
          case Rest(rest) => tmp := rest;
        }
        isTemplate := true;
      }
      ret := ret + [(part.name, isTemplate)];
    }
    return Failed;
  }

  // ----- Mangled names -----------------------------------------------------------------------------------

  datatype Nested = Nested(substitution: Substitution, qualifiers: string, parts: Parts)

  datatype Substitution = NoSubstitution | Sequence(chars: string)

  datatype Parts = NoParts | Parts(head: Part, tail: Parts)

  /** An identifier, or a constructor or destructor. */
  datatype Part = Identifier(id: string, args: Args) | Special(kind: char, number: char, args: Args)

  datatype Args = NoArgs | Args(list: ArgList)

  datatype ArgList = End | Arg(head: TemplateArg, tail: ArgList)

  /** A template argument: a one-letter type, one of the standard abbreviations, an identifier, a
      substitution, a pack of arguments, a nested name, or an expression, which starts with an L
      or an X. */
  datatype TemplateArg =
    | Letter(c: char)
    | Standard(c: char)
    | Plain(id: string)
    | Reference(chars: string)
    | Pack(list: ArgList)
    | Inner(name: Nested)
    | Expression(start: char, text: string)

  function Decimal(n: nat): string {
    (if n < 10 then "" else Decimal(n / 10)) + [Digit(n % 10)]
  }

  function Digit(k: nat): (c: char)
    requires k < 10
    ensures IsDigit(c) && c as int - '0' as int == k
  {
    ('0' as int + k) as char
  }

  function Counted(id: string): string {
    Decimal(|id|) + id
  }

  function PrintNested(n: Nested): string {
    "N" + (match n.substitution case NoSubstitution => "" case Sequence(chars) => "S" + chars + "_")
    + n.qualifiers + PrintParts(n.parts) + "E"
  }

  function PrintParts(ps: Parts): string {
    match ps
    case NoParts => ""
    case Parts(Identifier(id, args), tail) => Counted(id) + (PrintArgs(args) + PrintParts(tail))
    case Parts(Special(kind, number, args), tail) => [kind, number] + (PrintArgs(args) + PrintParts(tail))
  }

  function PrintArgs(args: Args): string {
    match args
    case NoArgs => ""
    case Args(list) => "I" + (PrintList(list) + "E")
  }

  function PrintList(list: ArgList): string {
    match list
    case End => ""
    case Arg(head, tail) => PrintArg(head) + PrintList(tail)
  }

  function PrintArg(a: TemplateArg): string {
    match a
    case Letter(c) => [c]
    case Standard(c) => ['S', c]
    case Plain(id) => Counted(id)
    case Reference(chars) => "S" + chars + "_"
    case Pack(list) => "I" + (PrintList(list) + "E")
    case Inner(name) => PrintNested(name)
    case Expression(start, text) => [start] + text
  }

  /** The list the parser should return. */
  function Names(ps: Parts): seq<Pair> {
    match ps
    case NoParts => []
    case Parts(Identifier(id, args), tail) => [(Counted(id), args.Args?)] + Names(tail)
    case Parts(Special(kind, number, args), tail) => [([kind, number], args.Args?)] + Names(tail)
  }

  predicate GoodId(id: string) {
    id != "" && !IsDigit(id[0]) && OneLine(id)
  }

  predicate AllInSequence(s: string) {
    forall k :: 0 <= k < |s| ==> 'A' <= s[k] <= 'Z' || '0' <= s[k] <= '9'
  }

  predicate AllQualifiers(s: string) {
    forall k :: 0 <= k < |s| ==> s[k] in "rVKRO"
  }

  predicate GoodNested(n: Nested) {
    && (n.substitution.Sequence? ==> AllInSequence(n.substitution.chars))
    && AllQualifiers(n.qualifiers)
    && GoodParts(n.parts)
  }

  predicate GoodParts(ps: Parts) {
    match ps
    case NoParts => true
    case Parts(Identifier(id, args), tail) => GoodId(id) && GoodArgs(args) && GoodParts(tail)
    case Parts(Special(kind, number, args), tail) =>
      (kind == 'C' || kind == 'D') && '1' <= number <= '3' && GoodArgs(args) && GoodParts(tail)
  }

  predicate GoodArgs(args: Args) {
    args.NoArgs? || GoodList(args.list)
  }

  predicate GoodList(list: ArgList) {
    list.End? || (GoodArg(list.head) && GoodList(list.tail))
  }

  predicate GoodArg(a: TemplateArg) {
    match a
    case Letter(c) => !IsDigit(c) && c != 'S' && c != 'I' && c != 'N' && c != 'L' && c != 'X' && c != 'E' && c != '\n'
    case Standard(c) => 'a' <= c <= 'z'
    case Plain(id) => GoodId(id)
    case Reference(chars) => AllInSequence(chars)
    case Pack(list) => GoodList(list)
    case Inner(name) => GoodNested(name)
    case Expression(_, _) => false
  }

  lemma Associates(a: string, b: string, c: string, d: string)
    ensures a + (b + c) + d == a + (b + (c + d))
  {
  }

  lemma PackText(list: string, s: string)
    ensures var t := "I" + (list + "E") + s; t == "I" + (list + ("E" + s)) && t != "" && t[0] == 'I' && t[1..] == list + ("E" + s)
  {
    Associates("I", list, "E", s);
  }

  // ----- Strings on one line -----------------------------------------------------------------------------

  lemma {:induction false} LineWhole(s: string)
    requires OneLine(s)
    ensures Line(s) == s
  {
    if s != "" {
      LineWhole(s[1..]);
    }
  }

  /** A line break only matters after what is on one line. */
  lemma {:induction false} LineApp(a: string, b: string)
    requires OneLine(a)
    ensures Line(a + b) == a + Line(b)
  {
    if a == "" {
      assert a + b == b;
    } else {
      LineApp(a[1..], b);
      assert (a + b)[1..] == a[1..] + b;
    }
  }

  lemma {:induction false} LineIsOneLine(s: string)
    ensures OneLine(Line(s))
  {
    if s != "" && s[0] != '\n' {
      LineIsOneLine(s[1..]);
    }
  }

  lemma {:induction false} DecimalIsNumber(n: nat)
    ensures var d := Decimal(n);
      d != "" && (forall k :: 0 <= k < |d| ==> IsDigit(d[k])) && Number(d) == n
  {
    if n >= 10 {
      DecimalIsNumber(n / 10);
    }
    var before := if n < 10 then "" else Decimal(n / 10);
    var d := Decimal(n);
    assert d[..|d| - 1] == before && d[|d| - 1] == Digit(n % 10);
    assert Number(before) == n / 10;
  }

  lemma {:induction false} DigitsThen(d: string, s: string)
    requires (forall k :: 0 <= k < |d| ==> IsDigit(d[k])) && (s == "" || !IsDigit(s[0]))
    ensures DigitCount(d + s) == |d|
  {
    if d == "" {
      assert d + s == s;
    } else {
      DigitsThen(d[1..], s);
      assert (d + s)[1..] == d[1..] + s;
    }
  }

  lemma {:induction false} SequenceThen(d: string, s: string)
    requires AllInSequence(d) && s != "" && s[0] == '_'
    ensures SequenceCount(d + s) == |d|
  {
    if d == "" {
      assert d + s == s;
    } else {
      SequenceThen(d[1..], s);
      assert (d + s)[1..] == d[1..] + s;
    }
  }

  lemma {:induction false} QualifiersThen(d: string, s: string)
    requires AllQualifiers(d) && s != "" && !IsQualifier(s[0])
    ensures QualifierCount(d + s) == |d|
  {
    if d == "" {
      assert d + s == s;
    } else {
      QualifiersThen(d[1..], s);
      assert (d + s)[1..] == d[1..] + s;
    }
  }

  /** A counted identifier at the start of a line. */
  lemma CountedGroups(id: string, s: string)
    requires GoodId(id) && OneLine(s)
    ensures var t, d := Counted(id) + s, |Decimal(|id|)|;
      && DigitGroup(t) == d && t[..d] == Decimal(|id|) && Line(t[d..]) == id + s && Number(Decimal(|id|)) == |id|
      && d > 0 && forall k :: 0 <= k < d ==> IsDigit(Decimal(|id|)[k])
  {
    var d := Decimal(|id|);
    DecimalIsNumber(|id|);
    assert Counted(id) + s == d + (id + s);
    DigitsThen(d, id + s);
    LineWhole(id + s);
    assert (d + (id + s))[|d|..] == id + s;
  }

  lemma SubstitutionGroup(chars: string, s: string)
    requires AllInSequence(chars) && OneLine(s)
    ensures AfterSubstitution("S" + chars + "_" + s) == s
  {
    var t := "S" + chars + "_" + s;
    assert t[1..] == chars + ("_" + s);
    SequenceThen(chars, "_" + s);
    assert t[2 + |chars|..] == s;
    LineWhole(s);
  }

  /** A string that does not start with S or a digit matches neither of the first two expressions. */
  lemma NoGroups(s: string)
    requires s != "" && !IsDigit(s[0]) && s[0] != 'S'
    ensures DigitGroup(s) == 0 && AfterSubstitution(s) == ""
  {
  }

  // ----- Skipping template arguments -------------------------------------------------------------------------

  /** More of the same line, which starts with something that can follow. */
  predicate Follows(s: string) {
    s != "" && OneLine(s)
  }

  /** A character that none of the cases is about is dropped. */
  lemma SkipOne(c: char, s: string)
    requires !IsDigit(c) && c != 'I' && c != 'N' && c != 'L' && c != 'X' && c != 'E'
    requires AfterSubstitution([c] + s) == ""
    ensures Skip([c] + s) == Skip(s)
  {
    assert ([c] + s)[1..] == s && DigitGroup([c] + s) == 0;
  }

  lemma SkipLetter(c: char, s: string)
    requires GoodArg(Letter(c)) && Follows(s)
    ensures Skip([c] + s) == Skip(s)
  {
    NoGroups([c] + s);
    SkipOne(c, s);
  }

  lemma SkipStandard(c: char, s: string)
    requires 'a' <= c <= 'z' && Follows(s)
    ensures Skip(['S', c] + s) == Skip(s)
  {
    var t := [c] + s;
    assert ['S', c] + s == ['S'] + t;
    assert (['S'] + t)[1..] == t && SequenceCount(t) == 0;
    assert AfterSubstitution(['S'] + t) == "";
    SkipOne('S', t);
    NoGroups(t);
    SkipOne(c, s);
  }

  /** A digit group and as many characters as it says are dropped. */
  lemma SkipGroup(t: string, d: nat, digits: string, group: string)
    requires 0 < d <= |t| && DigitGroup(t) == d && t[..d] == digits && Line(t[d..]) == group
    requires forall k :: 0 <= k < |digits| ==> IsDigit(digits[k])
    ensures Skip(t) == Skip(group[Clip(Number(digits), group)..])
  {
  }

  lemma ClipAll(id: string, s: string)
    ensures Clip(|id|, id + s) == |id| && (id + s)[..|id|] == id && (id + s)[|id|..] == s
  {
  }

  lemma SkipPlain(id: string, s: string)
    requires GoodId(id) && Follows(s)
    ensures Skip(Counted(id) + s) == Skip(s)
  {
    var digits := Decimal(|id|);
    CountedGroups(id, s);
    SkipGroup(Counted(id) + s, |digits|, digits, id + s);
    ClipAll(id, s);
  }

  lemma SkipReference(chars: string, s: string)
    requires AllInSequence(chars) && Follows(s)
    ensures Skip("S" + chars + "_" + s) == Skip(s)
  {
    SubstitutionGroup(chars, s);
    assert DigitGroup("S" + chars + "_" + s) == 0;
  }

  lemma SkipPack(list: ArgList, s: string)
    requires GoodList(list) && Follows(s)
    ensures Skip("I" + (PrintList(list) + "E") + s) == Skip(s)
    decreases list, 2
  {
    PackText(PrintList(list), s);
    NoGroups("I" + (PrintList(list) + "E") + s);
    SkipList(list, s);
  }

  lemma SkipInner(name: Nested, s: string)
    requires GoodNested(name) && Follows(s)
    ensures Skip(PrintNested(name) + s) == Skip(s)
    decreases name, 2
  {
    var t := PrintNested(name) + s;
    NoGroups(t);
    NestedRoundTrip(name, s);
    LineWhole(s);
  }

  lemma SkipArg(a: TemplateArg, s: string)
    requires GoodArg(a) && Follows(s)
    ensures Skip(PrintArg(a) + s) == Skip(s)
    decreases a, 3
  {
    match a
    case Letter(c) => SkipLetter(c, s);
    case Standard(c) => SkipStandard(c, s);
    case Plain(id) => SkipPlain(id, s);
    case Reference(chars) => SkipReference(chars, s);
    case Pack(list) => SkipPack(list, s);
    case Inner(name) => SkipInner(name, s);
  }

  lemma SkipEnd(s: string)
    ensures Skip(PrintList(End) + ("E" + s)) == Rest(s)
  {
    assert PrintList(End) + ("E" + s) == "E" + s && ("E" + s)[1..] == s;
    NoGroups("E" + s);
  }

  lemma PrintCons(head: TemplateArg, tail: ArgList, s: string)
    ensures PrintList(Arg(head, tail)) + ("E" + s) == PrintArg(head) + (PrintList(tail) + ("E" + s))
  {
  }

  /** A printed argument list, up to the E that ends it. */
  lemma {:induction false} SkipList(list: ArgList, s: string)
    requires GoodList(list) && OneLine(s)
    ensures Skip(PrintList(list) + ("E" + s)) == Rest(s)
    decreases list, 1
  {
    match list
    case End => SkipEnd(s);
    case Arg(head, tail) =>
      SkipList(tail, s);
      ListOneLine(tail);
      PrintCons(head, tail, s);
      SkipArg(head, PrintList(tail) + ("E" + s));
  }

  lemma DecimalOneLine(n: nat)
    ensures OneLine(Decimal(n))
  {
    DecimalIsNumber(n);
  }

  lemma {:induction false} ArgOneLine(a: TemplateArg)
    requires GoodArg(a)
    ensures OneLine(PrintArg(a))
    decreases a
  {
    match a
    case Plain(id) => DecimalOneLine(|id|);
    case Pack(list) => ListOneLine(list);
    case Inner(name) =>
      PartsOneLine(name.parts);
      NestedOneLine(name);
    case _ =>
  }

  lemma NestedOneLine(n: Nested)
    requires (n.substitution.Sequence? ==> AllInSequence(n.substitution.chars)) && AllQualifiers(n.qualifiers) && OneLine(PrintParts(n.parts))
    ensures OneLine(PrintNested(n))
  {
  }

  lemma {:induction false} ListOneLine(list: ArgList)
    requires GoodList(list)
    ensures OneLine(PrintList(list))
    decreases list
  {
    if list.Arg? {
      ArgOneLine(list.head);
      ListOneLine(list.tail);
    }
  }

  lemma {:induction false} PartsOneLine(ps: Parts)
    requires GoodParts(ps)
    ensures OneLine(PrintParts(ps))
    decreases ps
  {
    match ps
    case NoParts =>
    case Parts(Identifier(id, args), tail) =>
      DecimalOneLine(|id|);
      ArgsOneLine(args);
      PartsOneLine(tail);
    case Parts(Special(kind, number, args), tail) =>
      ArgsOneLine(args);
      PartsOneLine(tail);
  }

  lemma {:induction false} ArgsOneLine(args: Args)
    requires GoodArgs(args)
    ensures OneLine(PrintArgs(args))
    decreases args
  {
    if args.Args? {
      ListOneLine(args.list);
    }
  }

  // ----- Parsing names ------------------------------------------------------------------------------------------

  lemma ParseIdentifier(id: string, s: string)
    requires GoodId(id) && Follows(s)
    ensures ParseName(Counted(id) + s) == Name(Counted(id), s)
  {
    CountedGroups(id, s);
    var t, d := Counted(id) + s, |Decimal(|id|)|;
    ClipAll(id, s);
    assert Number(t[..d]) == |id|;
  }

  lemma ParseSpecial(kind: char, number: char, s: string)
    requires (kind == 'C' || kind == 'D') && '1' <= number <= '3' && Follows(s)
    ensures ParseName([kind, number] + s) == Name([kind, number], s)
  {
    var t := [kind, number] + s;
    assert t[2..] == s && t[..2] == [kind, number];
    LineWhole(s);
    assert DigitGroup(t) == 0;
  }

  /** A name that no template arguments follow. */
  lemma NameAlone(t: string, name: string, s: string, names: seq<Pair>)
    requires t != "" && t[0] != 'E' && ParseName(t) == Name(name, s) && s != "" && s[0] != 'I'
    ensures ParseNames(t, names) == ParseNames(s, names + [(name, false)])
  {
  }

  /** A name, and template arguments that can be skipped. */
  lemma NameWithArgs(t: string, name: string, rest: string, s: string, names: seq<Pair>)
    requires t != "" && t[0] != 'E' && ParseName(t) == Name(name, rest) && rest != "" && rest[0] == 'I'
    requires Skip(rest[1..]) == Rest(s)
    ensures ParseNames(t, names) == ParseNames(s, names + [(name, true)])
  {
  }

  lemma ArgsStart(list: ArgList, s: string)
    ensures var rest := PrintArgs(Args(list)) + s;
      rest != "" && rest[0] == 'I' && rest[1..] == PrintList(list) + ("E" + s)
  {
  }

  /** One part, after its name: the template arguments, if there are any, are skipped. */
  lemma AfterName(t: string, name: string, args: Args, s: string, names: seq<Pair>)
    requires t != "" && t[0] != 'E' && ParseName(t) == Name(name, PrintArgs(args) + s)
    requires GoodArgs(args) && Follows(s) && s[0] != 'I'
    ensures ParseNames(t, names) == ParseNames(s, names + [(name, args.Args?)])
    decreases args, 2
  {
    match args
    case NoArgs =>
      assert PrintArgs(args) + s == s;
      NameAlone(t, name, s, names);
    case Args(list) =>
      ArgsStart(list, s);
      SkipList(list, s);
      NameWithArgs(t, name, PrintArgs(args) + s, s, names);
  }

  /** A printed part starts with a digit, a C or a D. */
  lemma PartsStart(ps: Parts)
    requires GoodParts(ps) && ps.Parts?
    ensures var s := PrintParts(ps); s != "" && (IsDigit(s[0]) || s[0] == 'C' || s[0] == 'D')
  {
    match ps.head
    case Identifier(id, _) => DecimalIsNumber(|id|);
    case Special(_, _, _) =>
  }

  lemma NoPartsLeft(s: string, names: seq<Pair>)
    ensures ParseNames(PrintParts(NoParts) + ("E" + s), names) == Parsed(names, s)
  {
    assert PrintParts(NoParts) + ("E" + s) == "E" + s && ("E" + s)[1..] == s;
  }

  /** What one step needs to know about the printed parts. */
  lemma PartsReady(head: Part, tail: Parts, s: string)
    requires GoodParts(Parts(head, tail)) && OneLine(s)
    ensures OneLine(PrintParts(tail) + ("E" + s)) && OneLine(PrintArgs(head.args))
    ensures tail.Parts? ==> PrintParts(tail) != "" && PrintParts(tail)[0] != 'I'
    ensures PrintParts(Parts(head, tail)) != "" && PrintParts(Parts(head, tail))[0] != 'E'
  {
    PartsOneLine(tail);
    ArgsOneLine(head.args);
    PartsStart(Parts(head, tail));
    if tail.Parts? {
      PartsStart(tail);
    }
  }

  lemma {:induction false} PartsRoundTrip(ps: Parts, s: string, names: seq<Pair>)
    requires GoodParts(ps) && OneLine(s)
    ensures ParseNames(PrintParts(ps) + ("E" + s), names) == Parsed(names + Names(ps), s)
    decreases ps, 1
  {
    match ps
    case NoParts =>
      NoPartsLeft(s, names);
      assert names + [] == names;
    case Parts(head, tail) =>
      PartsReady(head, tail, s);
      PartStep(head, tail, s, names);
      PartsRoundTrip(tail, s, names + [Named(head)]);
      NamesCons(head, tail, names);
  }

  lemma NamesCons(head: Part, tail: Parts, names: seq<Pair>)
    ensures names + [Named(head)] + Names(tail) == names + Names(Parts(head, tail))
  {
  }

  function Named(p: Part): Pair {
    match p
    case Identifier(id, args) => (Counted(id), args.Args?)
    case Special(kind, number, args) => ([kind, number], args.Args?)
  }

  /** One part. */
  lemma PartStep(head: Part, tail: Parts, s: string, names: seq<Pair>)
    requires GoodParts(Parts(head, tail)) && OneLine(PrintParts(tail) + ("E" + s)) && OneLine(PrintArgs(head.args))
    requires tail.Parts? ==> PrintParts(tail) != "" && PrintParts(tail)[0] != 'I'
    requires PrintParts(Parts(head, tail)) != "" && PrintParts(Parts(head, tail))[0] != 'E'
    ensures ParseNames(PrintParts(Parts(head, tail)) + ("E" + s), names)
      == ParseNames(PrintParts(tail) + ("E" + s), names + [Named(head)])
    decreases head, 2
  {
    var more := PrintParts(tail) + ("E" + s);
    var t := PrintParts(Parts(head, tail)) + ("E" + s);
    match head
    case Identifier(id, args) =>
      assert t == Counted(id) + (PrintArgs(args) + more);
      ParseIdentifier(id, PrintArgs(args) + more);
      AfterName(t, Counted(id), args, more, names);
    case Special(kind, number, args) =>
      assert t == [kind, number] + (PrintArgs(args) + more);
      ParseSpecial(kind, number, PrintArgs(args) + more);
      AfterName(t, [kind, number], args, more, names);
  }

  /** What the start of a printed name leaves: its parts, its E, and the rest of the line. */
  lemma PrintedStart(n: Nested, s: string)
    requires GoodNested(n)
    ensures Start(PrintNested(n) + s) == PrintParts(n.parts) + ("E" + Line(s))
  {
    var body := PrintParts(n.parts) + "E";
    PartsOneLine(n.parts);
    if n.parts.Parts? {
      PartsStart(n.parts);
    }
    assert body != "" && !IsQualifier(body[0]) && body[0] != 'S';
    PrintedParts(n, body, s);
    match n.substitution
    case NoSubstitution => PlainStart(n.qualifiers, body, s);
    case Sequence(chars) => SubstitutedStart(chars, n.qualifiers, body, s);
  }

  lemma PrintedParts(n: Nested, body: string, s: string)
    requires body == PrintParts(n.parts) + "E"
    ensures n.substitution.NoSubstitution? ==> PrintNested(n) + s == "N" + (n.qualifiers + (body + s))
    ensures n.substitution.Sequence? ==>
      PrintNested(n) + s == "N" + ("S" + n.substitution.chars + "_" + (n.qualifiers + body + s))
    ensures body + Line(s) == PrintParts(n.parts) + ("E" + Line(s))
  {
    match n.substitution
    case NoSubstitution => PlainJoins(n.qualifiers, PrintParts(n.parts), s);
    case Sequence(chars) => SubstitutedJoins(chars, n.qualifiers, PrintParts(n.parts), s);
  }

  lemma PlainJoins(q: string, parts: string, s: string)
    ensures "N" + "" + q + parts + "E" + s == "N" + (q + (parts + "E" + s))
  {
  }

  lemma SubstitutedJoins(chars: string, q: string, parts: string, s: string)
    ensures "N" + ("S" + chars + "_") + q + parts + "E" + s == "N" + ("S" + chars + "_" + (q + (parts + "E") + s))
  {
  }

  lemma StartIs(t: string)
    ensures Start("N" + t) == AfterQualifiers(if AfterSubstitution(t) != "" then AfterSubstitution(t) else t)
  {
    assert ("N" + t)[1..] == t;
  }

  lemma PlainStart(q: string, body: string, s: string)
    requires AllQualifiers(q) && body != "" && !IsQualifier(body[0]) && OneLine(body) && body[0] != 'S'
    ensures Start("N" + (q + (body + s))) == body + Line(s)
  {
    var t := q + (body + s);
    assert t != "" && t[0] != 'S';
    StartIs(t);
    NotASubstitution(t);
    QualifiersGone(q, body, s);
  }

  lemma SubstitutedStart(chars: string, q: string, body: string, s: string)
    requires AllInSequence(chars)
    requires AllQualifiers(q) && body != "" && !IsQualifier(body[0]) && OneLine(body)
    ensures Start("N" + ("S" + chars + "_" + (q + body + s))) == body + Line(s)
  {
    var a := q + body;
    var t := "S" + chars + "_" + (a + s);
    assert OneLine(a) && a != "";
    LongSubstitution(chars, a, s);
    SubstitutionSkipped(t, a + Line(s));
    LineTwice(q, body, s);
  }

  lemma SubstitutionSkipped(t: string, r: string)
    requires AfterSubstitution(t) == r && r != ""
    ensures Start("N" + t) == AfterQualifiers(r)
  {
    StartIs(t);
  }

  lemma LineTwice(q: string, body: string, s: string)
    requires AllQualifiers(q) && body != "" && !IsQualifier(body[0]) && OneLine(body)
    ensures AfterQualifiers(q + body + Line(s)) == body + Line(s)
  {
    LineIsOneLine(s);
    QualifiersBefore(q, body, Line(s));
  }

  lemma QualifiersBefore(q: string, body: string, t: string)
    requires AllQualifiers(q) && body != "" && !IsQualifier(body[0]) && OneLine(body) && OneLine(t)
    ensures AfterQualifiers(q + body + t) == body + t
  {
    LineWhole(t);
    QualifiersGone(q, body, t);
    PlusAssociates(q, body, t);
  }

  lemma PlusAssociates(a: string, b: string, c: string)
    ensures a + b + c == a + (b + c)
  {
  }

  lemma NotASubstitution(s: string)
    requires s != "" && s[0] != 'S'
    ensures AfterSubstitution(s) == ""
  {
  }

  lemma LongSubstitution(chars: string, a: string, s: string)
    requires AllInSequence(chars) && OneLine(a) && a != ""
    ensures AfterSubstitution("S" + chars + "_" + (a + s)) == a + Line(s)
  {
    var t := "S" + chars + "_" + (a + s);
    assert t[1..] == chars + ("_" + (a + s));
    SequenceThen(chars, "_" + (a + s));
    assert t[2 + |chars|..] == a + s;
    LineApp(a, s);
  }

  lemma QualifiersGone(q: string, body: string, s: string)
    requires AllQualifiers(q) && body != "" && !IsQualifier(body[0]) && OneLine(body)
    ensures AfterQualifiers(q + (body + s)) == body + Line(s)
  {
    QualifiersThen(q, body + s);
    assert (q + (body + s))[|q|..] == body + s;
    LineApp(body, s);
  }

  /** Printing a nested name and parsing it gives the list of its parts, with whether each has
      template arguments, and the rest of the line it is on. */
  lemma {:induction false} NestedRoundTrip(n: Nested, s: string)
    requires GoodNested(n)
    ensures ParseNested(PrintNested(n) + s) == Parsed(Names(n.parts), Line(s))
    decreases n, 1
  {
    PrintedStart(n, s);
    LineIsOneLine(s);
    PartsRoundTrip(n.parts, Line(s), []);
    assert [] + Names(n.parts) == Names(n.parts);
  }
}
