/** The IdAttr grammar ("hero.1:hp"), its extraction into an id/attribute reference, and the
    default policy the value-reference consumer applies to absent parts. */
module Values {
  import opened Outcomes
  import opened Tokens
  import opened Parsers

  const ElementIdPattern: Pattern := Pattern(ElementId, false, false)
  const AttributeNamePattern: Pattern := Pattern(AttributeName, false, false)
  const ColonPattern: Pattern := Pattern(Literal(':'), false, false)

  /** `Sequence(Optional(ElementId), /:/, Optional(AttributeName))`. */
  function IdAttr(shape: OptionalShape): (r: Parser)
    ensures r == Sequence(IdAttrMatchers(shape))
  {
    NewSequence([
      Composite(NewOptional(Terminal(ElementIdPattern), shape)),
      Terminal(ColonPattern),
      Composite(NewOptional(Terminal(AttributeNamePattern), shape))])
  }

  /** The regex-only variant `Sequence(/([a-zA-Z_][\w\.]*)?/, /:/, /([a-zA-Z_]\w*)?/)`. */
  function IdAttrParser(): (r: Parser)
    ensures r == Sequence(IdAttrParserMatchers())
  {
    NewSequence([
      Terminal(Pattern(ElementId, true, false)),
      Terminal(ColonPattern),
      Terminal(Pattern(AttributeName, true, false))])
  }

  /** Length of the element id at the start of `s` (0 when there is none). */
  function IdLength(s: string): nat {
    TokenAt(ElementId, s, 0).GetOr(0)
  }

  /** Length of the attribute name at the start of `s` (0 when there is none). */
  function AttrLength(s: string): nat {
    TokenAt(AttributeName, s, 0).GetOr(0)
  }

  /** The three matchers of IdAttr once the constructors have anchored them. */
  const IdP: Pattern := Pattern(ElementId, false, true)
  const ColonP: Pattern := Pattern(Literal(':'), false, true)
  const AttrP: Pattern := Pattern(AttributeName, false, true)

  function IdAttrMatchers(shape: OptionalShape): seq<Matcher> {
    [Composite(Optional(Terminal(IdP), shape)), Terminal(ColonP), Composite(Optional(Terminal(AttrP), shape))]
  }

  /** The three matchers of IdAttrParser once the constructor has anchored them. */
  const IdGroupP: Pattern := Pattern(ElementId, true, true)
  const AttrGroupP: Pattern := Pattern(AttributeName, true, true)

  function IdAttrParserMatchers(): seq<Matcher> {
    [Terminal(IdGroupP), Terminal(ColonP), Terminal(AttrGroupP)]
  }

  /** The result an anchored terminal produces on `s` when it consumes `n` characters. */
  function TerminalResult(p: Pattern, s: string, n: nat): Result
    requires n <= |s|
  {
    Result(Terminal(p), Items([Text(s[..n])]), n, Ok)
  }

  /** The children an Optional over terminal `p` produces when `p` consumed `n` characters of `s`. */
  function OptionalLayout(shape: OptionalShape, p: Pattern, s: string, n: nat): Children
    requires n <= |s|
  {
    if n == 0 then Items([])
    else if shape == MatchList then Items([Node(TerminalResult(p, s, n))])
    else Record(TerminalResult(p, s, n))
  }

  /** An Optional over an anchored terminal never fails; it consumes what the terminal
      consumes and keeps the terminal's result in the layout its shape prescribes. */
  lemma OptionalTerminal(p: Pattern, shape: OptionalShape, s: string)
    requires p.anchored && !p.optional
    ensures var st := Match(Composite(Optional(Terminal(p), shape)), s);
      var n := TokenAt(p.token, s, 0).GetOr(0);
      && st.result == Result(Composite(Optional(Terminal(p), shape)), OptionalLayout(shape, p, s, n), n, Ok)
      && st.rest == s[n..]
  {
    var q := Optional(Terminal(p), shape);
    var n := TokenAt(p.token, s, 0).GetOr(0);
    assert PatternAt(p, s, 0) == TokenAt(p.token, s, 0);
    var inner := Match(Terminal(p), s);
    TerminalStep(p, s);
    var r := Parse(q, s);
    if TokenAt(p.token, s, 0).Some? {
      assert inner.result == TerminalResult(p, s, n);
      assert r == Result(Composite(q), OptionalLayout(shape, p, s, n), n, Ok);
    } else {
      assert r == Result(Composite(q), Items([]), 0, Ok);
    }
  }

  /** An anchored terminal run on `s`, in terms of the word at the start of `s`. */
  lemma TerminalStep(p: Pattern, s: string)
    requires p.anchored
    ensures var st := Match(Terminal(p), s);
      var t := PatternAt(p, s, 0);
      && (st.result.status.Ok? <==> t.Some?)
      && (t.Some? ==> st.result == TerminalResult(p, s, t.value) && st.rest == s[t.value..])
      && (t.None? ==> st.rest == s)
  {
    if PatternAt(p, s, 0).Some? {
      assert s[0..PatternAt(p, s, 0).value] == s[..PatternAt(p, s, 0).value];
    }
  }

  /** Unfolds the three steps of a three-matcher sequence. */
  lemma RunThree(a: Matcher, b: Matcher, c: Matcher, s: string)
    ensures var s1 := Match(a, s).rest;
      var s2 := Match(b, s1).rest;
      Run([a, b, c], s) == Trace([Match(a, s).result, Match(b, s1).result, Match(c, s2).result], Match(c, s2).rest)
  {
    var s1 := Match(a, s).rest;
    var s2 := Match(b, s1).rest;
    var s3 := Match(c, s2).rest;
    assert [a, b, c][1..] == [b, c];
    assert [b, c][1..] == [c];
    assert [c][1..] == [];
    assert Run([], s3) == Trace([], s3);
    assert Run([c], s2) == Trace([Match(c, s2).result], s3);
    assert Run([b, c], s1) == Trace([Match(b, s1).result, Match(c, s2).result], s3);
  }

  /** Whether a colon follows the element id at the start of `s`. */
  predicate ColonAfterId(s: string) {
    IdLength(s) < |s| && s[IdLength(s)] == ':'
  }

  /** What is left for the attribute part: the input after the colon, or after the id when
      there is no colon. */
  function AfterColon(s: string): string {
    if ColonAfterId(s) then s[IdLength(s) + 1..] else s[IdLength(s)..]
  }

  /** An optional-group terminal never fails: it consumes the word at the start of `s`, or nothing. */
  lemma GroupTerminal(p: Pattern, s: string)
    requires p.anchored && p.optional
    ensures var n := TokenAt(p.token, s, 0).GetOr(0);
      Match(Terminal(p), s) == Step(TerminalResult(p, s, n), s[n..])
  {
    PatternAtLongest(p, s, 0);
    TerminalStep(p, s);
    assert PatternAt(p, s, 0) == Some(TokenAt(p.token, s, 0).GetOr(0));
  }

  /** The colon matcher after the element id. */
  lemma ColonStep(s: string)
    ensures var st := Match(Terminal(ColonP), s[IdLength(s)..]);
      && (st.result.status.Ok? <==> ColonAfterId(s))
      && st.result.length == (if ColonAfterId(s) then 1 else 0)
      && st.result.children.Items?
      && st.rest == AfterColon(s)
  {
    TerminalStep(ColonP, s[IdLength(s)..]);
  }

  /** The three results of running IdAttr's matchers. */
  lemma {:induction false} IdAttrTrace(shape: OptionalShape, s: string)
    ensures var ms := IdAttrMatchers(shape);
      var t := Run(ms, s);
      var k := IdLength(s);
      var a := AttrLength(AfterColon(s));
      && |t.results| == 3
      && t.results[0] == Result(ms[0], OptionalLayout(shape, IdP, s, k), k, Ok)
      && (t.results[1].status.Ok? <==> ColonAfterId(s))
      && t.results[1].length == (if ColonAfterId(s) then 1 else 0)
      && t.results[1].children.Items?
      && t.results[2] == Result(ms[2], OptionalLayout(shape, AttrP, AfterColon(s), a), a, Ok)
  {
    var ms := IdAttrMatchers(shape);
    var t := Run(ms, s);
    var k := IdLength(s);
    var st0 := Match(ms[0], s);
    var st1 := Match(ms[1], st0.rest);
    var st2 := Match(ms[2], st1.rest);
    assert t.results == [st0.result, st1.result, st2.result] by {
      RunThree(ms[0], ms[1], ms[2], s);
    }
    assert st0.result == Result(ms[0], OptionalLayout(shape, IdP, s, k), k, Ok) && st0.rest == s[k..] by {
      OptionalTerminal(IdP, shape, s);
    }
    ColonStep(s);
    var a := AttrLength(st1.rest);
    assert st2.result == Result(ms[2], OptionalLayout(shape, AttrP, st1.rest, a), a, Ok) by {
      OptionalTerminal(AttrP, shape, st1.rest);
    }
  }

  /** The three results of running IdAttrParser's matchers. */
  lemma {:induction false} IdAttrParserTrace(ms: seq<Matcher>, s: string)
    requires ms == IdAttrParserMatchers()
    ensures var t := Run(ms, s);
      var k := IdLength(s);
      var a := AttrLength(AfterColon(s));
      && |t.results| == 3
      && t.results[0] == TerminalResult(IdGroupP, s, k)
      && (t.results[1].status.Ok? <==> ColonAfterId(s))
      && t.results[1].length == (if ColonAfterId(s) then 1 else 0)
      && t.results[1].children.Items?
      && t.results[2] == TerminalResult(AttrGroupP, AfterColon(s), a)
  {
    var t := Run(ms, s);
    var k := IdLength(s);
    var st0 := Match(ms[0], s);
    var st1 := Match(ms[1], st0.rest);
    var st2 := Match(ms[2], st1.rest);
    assert t.results == [st0.result, st1.result, st2.result] by {
      RunThree(ms[0], ms[1], ms[2], s);
    }
    assert st0 == Step(TerminalResult(IdGroupP, s, k), s[k..]) by {
      GroupTerminal(IdGroupP, s);
    }
    ColonStep(s);
    assert st2.result == TerminalResult(AttrGroupP, st1.rest, AttrLength(st1.rest)) by {
      GroupTerminal(AttrGroupP, st1.rest);
    }
  }

  /** The sum of three lengths. */
  lemma TotalThree(rs: seq<Result>)
    requires |rs| == 3
    ensures Total(rs) == rs[0].length + rs[1].length + rs[2].length
  {
    assert rs[1..][1..] == [rs[2]];
    assert [rs[2]][1..] == [];
    assert Total([rs[2]]) == rs[2].length + Total([]);
    assert Total(rs[1..]) == rs[1].length + Total([rs[2]]);
  }

  /** An IdAttr parse succeeds exactly when a colon follows the (possibly empty) element id at
      the start of the input; it then consumes the id, the colon and the attribute name after it.
      This holds whatever layout the Optional parser uses. */
  lemma IdAttrAccepts(shape: OptionalShape, s: string)
    ensures var k := IdLength(s);
      var r := Parse(IdAttr(shape), s);
      && (r.status.Ok? <==> k < |s| && s[k] == ':')
      && (r.status.Ok? ==> r.length == k + 1 + AttrLength(s[k + 1..]))
  {
    var ms := IdAttrMatchers(shape);
    var r := Parse(IdAttr(shape), s);
    assert r == Parse(Sequence(ms), s);
    var t := Run(ms, s);
    assert (r.status.Ok? <==> t.results[1].status.Ok?)
      && (r.status.Ok? ==> r.length == t.results[0].length + t.results[1].length + t.results[2].length) by {
      IdAttrTrace(shape, s);
      SequenceOfThree(ms, s);
    }
    IdAttrTrace(shape, s);
  }

  /** A three-matcher sequence, spelled out. */
  lemma SequenceOfThree(ms: seq<Matcher>, s: string)
    requires |ms| == 3
    ensures var r := Parse(Sequence(ms), s);
      var rs := Run(ms, s).results;
      && (r.status.Ok? <==> rs[0].status.Ok? && rs[1].status.Ok? && rs[2].status.Ok?)
      && (r.status.Ok? ==> r.length == rs[0].length + rs[1].length + rs[2].length)
      && (r.status.Ok? ==> r.children == Items([Node(rs[0]), Node(rs[1]), Node(rs[2])]))
  {
    SequenceParse(ms, s);
    var rs := Run(ms, s).results;
    TotalThree(rs);
    assert forall i :: 0 <= i < 3 ==> rs[i] == [rs[0], rs[1], rs[2]][i];
  }

  /** The regex-only IdAttrParser succeeds on the same condition as IdAttr, consuming as much. */
  lemma IdAttrParserAccepts(s: string)
    ensures var r := Parse(IdAttrParser(), s);
      && (r.status.Ok? <==> ColonAfterId(s))
      && (r.status.Ok? ==> r.length == IdLength(s) + 1 + AttrLength(AfterColon(s)))
  {
    var ms := IdAttrParserMatchers();
    var r := Parse(IdAttrParser(), s);
    assert r == Parse(Sequence(ms), s);
    var rs := Run(ms, s).results;
    IdAttrParserTrace(ms, s);
    assert rs[0].status.Ok? && rs[2].status.Ok?;
    assert rs[0].length == IdLength(s) && rs[2].length == AttrLength(AfterColon(s));
    SequenceOfThree(ms, s);
  }

  /** The regex-only IdAttrParser accepts exactly the inputs IdAttr accepts, and consumes as much. */
  lemma IdAttrParserAgrees(shape: OptionalShape, s: string)
    ensures var r := Parse(IdAttrParser(), s);
      var q := Parse(IdAttr(shape), s);
      && (r.status.Ok? <==> q.status.Ok?)
      && (r.status.Ok? ==> r.length == q.length)
  {
    IdAttrAccepts(shape, s);
    IdAttrParserAccepts(s);
    if ColonAfterId(s) {
      assert AfterColon(s) == s[IdLength(s) + 1..];
    }
  }

  /** What `extractIdAttr` returns: the id and attribute, each absent (`null`) or present. */
  datatype IdAttrRef = IdAttrRef(id: Option<Child>, attr: Option<Child>)

  /** The value of one optional part, read as `part.children` then
      `"children" in x && x.children.length == 1 ? x.children[0] : null`. */
  function OptionalPart(part: Child): (v: Outcome<Option<Child>>)
    ensures v.Success? <==> part.Node?
    ensures v.Success? && v.value.Some? <==>
      && part.Node? && part.result.children.Record?
      && part.result.children.record.children.Items?
      && |part.result.children.record.children.items| == 1
    ensures v.Success? && v.value.Some? ==> v.value.value == part.result.children.record.children.items[0]
  {
    match part
    case Text(_) => Failure(TypeError)   // `"children" in undefined`
    case Node(r) =>
      match r.children
      case Items(_) => Success(None)       // an array has no `children` property
      case Record(x) =>
        if x.children.Items? && |x.children.items| == 1 then Success(Some(x.children.items[0]))
        else Success(None)
  }

  /** `extractIdAttr`: the id is read from child 0 and the attribute from child 2; child 1 (the
      colon) is ignored. A result that is not "ok" throws; the throw statement names a variable
      that is not in scope there, so what is thrown is a ReferenceError. */
  function ExtractIdAttr(ast: Result): (r: Outcome<IdAttrRef>)
    ensures !ast.status.Ok? ==> r == Failure(ReferenceError("inString"))
    ensures r.Success? ==>
      && ast.status.Ok? && ast.children.Items? && |ast.children.items| >= 3
      && OptionalPart(ast.children.items[0]) == Success(r.value.id)
      && OptionalPart(ast.children.items[2]) == Success(r.value.attr)
    ensures (&& ast.status.Ok? && ast.children.Items? && |ast.children.items| >= 3
             && ast.children.items[0].Node? && ast.children.items[2].Node?) ==> r.Success?
  {
    if !ast.status.Ok? then Failure(ReferenceError("inString"))
    else if !ast.children.Items? || |ast.children.items| == 0 then Failure(TypeError)
    else
      match OptionalPart(ast.children.items[0])
      case Failure(e) => Failure(e)
      case Success(id) =>
        if |ast.children.items| < 3 then Failure(TypeError)
        else
          match OptionalPart(ast.children.items[2])
          case Failure(e) => Failure(e)
          case Success(attr) => Success(IdAttrRef(id, attr))
  }

  /** One element of a children array handed to `extractIdAttr` by `map`: a string has no
      `status`, so it takes the throwing branch. */
  function ExtractChild(c: Child): Outcome<IdAttrRef> {
    match c
    case Text(_) => Failure(ReferenceError("inString"))
    case Node(r) => ExtractIdAttr(r)
  }

  /** `children.map(extractIdAttr)`: the first throw propagates. */
  function ExtractAll(cs: seq<Child>): (r: Outcome<seq<IdAttrRef>>)
    ensures r.Success? <==> forall i :: 0 <= i < |cs| ==> ExtractChild(cs[i]).Success?
    ensures r.Success? ==> |r.value| == |cs| && forall i :: 0 <= i < |cs| ==> ExtractChild(cs[i]) == Success(r.value[i])
  {
    if |cs| == 0 then Success([])
    else
      match ExtractChild(cs[0])
      case Failure(e) => Failure(e)
      case Success(v) =>
        match ExtractAll(cs[1..])
        case Failure(e) => Failure(e)
        case Success(vs) => Success([v] + vs)
  }

  /** `extractIdAttrs`: one reference per child, in child order. The status is not consulted:
      a failed parse has no children and yields no references. */
  function ExtractIdAttrs(ast: Result): (r: Outcome<seq<IdAttrRef>>)
    ensures ast.children.Record? ==> r == Failure(TypeError)
    ensures ast.children.Items? ==> r == ExtractAll(ast.children.items)
  {
    match ast.children
    case Record(_) => Failure(TypeError)
    case Items(cs) => ExtractAll(cs)
  }

  /** The id and attribute a value reference reads, after defaults are applied. */
  datatype ValueSource = ValueSource(id: Child, attr: Child)

  /** The consumer's default policy: an absent id is the element's own id, an absent attribute
      is "value"; present parts are kept. */
  function Resolve(ref: IdAttrRef, ownId: string): (v: ValueSource)
    ensures v.id == (if ref.id.Some? then ref.id.value else Text(ownId))
    ensures v.attr == (if ref.attr.Some? then ref.attr.value else Text("value"))
  {
    ValueSource(ref.id.GetOr(Text(ownId)), ref.attr.GetOr(Text("value")))
  }

  /** `initValueReference` up to the DOM lookup: nothing happens without a `data-value-source`;
      otherwise the source is parsed with IdAttr, extracted, and defaulted. */
  function InitValueReference(valueSource: Option<string>, ownId: string, shape: OptionalShape): (r: Outcome<Option<ValueSource>>)
    ensures valueSource.None? ==> r == Success(None)
  {
    match valueSource
    case None => Success(None)
    case Some(src) =>
      match ExtractIdAttr(Parse(IdAttr(shape), src))
      case Failure(e) => Failure(e)
      case Success(ref) => Success(Some(Resolve(ref, ownId)))
  }

  /** The reference read from a value source: with the record layout, a present id or attribute
      is the matched text and an absent one falls back to the default; with the list layout
      the extractor never finds a `children` field, so both parts always take the default.
      A source without a colon after its id throws. */
  lemma InitValueReferenceReads(src: string, ownId: string, shape: OptionalShape)
    ensures var r := InitValueReference(Some(src), ownId, shape);
      if ColonAfterId(src) then
        var k := IdLength(src);
        var rest := AfterColon(src);
        var a := AttrLength(rest);
        r == Success(Some(
          if shape == MatchRecord then
            ValueSource(if k == 0 then Text(ownId) else Text(src[..k]), if a == 0 then Text("value") else Text(rest[..a]))
          else ValueSource(Text(ownId), Text("value"))))
      else r == Failure(ReferenceError("inString"))
  {
    IdAttrExtracts(shape, src);
  }

  /** The part an Optional over terminal `p` contributes to extraction: the matched text under
      the record layout when something was matched, and nothing otherwise. */
  lemma OptionalPartOf(m: Matcher, shape: OptionalShape, p: Pattern, s: string, n: nat)
    requires n <= |s|
    ensures OptionalPart(Node(Result(m, OptionalLayout(shape, p, s, n), n, Ok)))
      == Success(if shape == MatchRecord && n > 0 then Some(Text(s[..n])) else None)
  {
  }

  /** The shape of an IdAttr parse result: "ok" exactly when a colon follows the id, and then
      one child per part, the optional parts laid out as their shape prescribes. */
  lemma IdAttrResult(shape: OptionalShape, s: string)
    ensures var r := Parse(IdAttr(shape), s);
      var ms := IdAttrMatchers(shape);
      var k := IdLength(s);
      var a := AttrLength(AfterColon(s));
      && (r.status.Ok? <==> ColonAfterId(s))
      && (r.status.Ok? ==>
            && r.children.Items? && |r.children.items| == 3
            && r.children == Items([
              Node(Result(ms[0], OptionalLayout(shape, IdP, s, k), k, Ok)),
              r.children.items[1],
              Node(Result(ms[2], OptionalLayout(shape, AttrP, AfterColon(s), a), a, Ok))]))
  {
    var ms := IdAttrMatchers(shape);
    var r := Parse(IdAttr(shape), s);
    assert r == Parse(Sequence(ms), s);
    var rs := Run(ms, s).results;
    IdAttrTrace(shape, s);
    SequenceOfThree(ms, s);
    if r.status.Ok? {
      assert r.children == Items([Node(rs[0]), Node(rs[1]), Node(rs[2])]);
    }
  }

  /** Extraction from a result whose optional parts hold `n0` characters of `s0` and `n2`
      characters of `s2`. */
  lemma ExtractFromLayout(r: Result, shape: OptionalShape, m0: Matcher, m2: Matcher, colon: Child,
                          s0: string, n0: nat, s2: string, n2: nat)
    requires n0 <= |s0| && n2 <= |s2|
    requires r.status.Ok?
    requires r.children == Items([
      Node(Result(m0, OptionalLayout(shape, IdP, s0, n0), n0, Ok)),
      colon,
      Node(Result(m2, OptionalLayout(shape, AttrP, s2, n2), n2, Ok))])
    ensures ExtractIdAttr(r) == Success(
      if shape == MatchRecord then
        IdAttrRef(if n0 == 0 then None else Some(Text(s0[..n0])), if n2 == 0 then None else Some(Text(s2[..n2])))
      else IdAttrRef(None, None))
  {
    OptionalPartOf(m0, shape, IdP, s0, n0);
    OptionalPartOf(m2, shape, AttrP, s2, n2);
  }

  /** Extraction from an IdAttr parse: with the record layout, the id and attribute are the
      matched words (absent when empty); with the list layout both are always absent. An input
      without a colon after its id throws. */
  lemma IdAttrExtracts(shape: OptionalShape, s: string)
    ensures var e := ExtractIdAttr(Parse(IdAttr(shape), s));
      if ColonAfterId(s) then
        var k := IdLength(s);
        var rest := AfterColon(s);
        var a := AttrLength(rest);
        e == Success(
          if shape == MatchRecord then
            IdAttrRef(if k == 0 then None else Some(Text(s[..k])), if a == 0 then None else Some(Text(rest[..a])))
          else IdAttrRef(None, None))
      else e == Failure(ReferenceError("inString"))
  {
    var r := Parse(IdAttr(shape), s);
    IdAttrResult(shape, s);
    if ColonAfterId(s) {
      var ms := IdAttrMatchers(shape);
      ExtractFromLayout(r, shape, ms[0], ms[2], r.children.items[1], s, IdLength(s), AfterColon(s), AttrLength(AfterColon(s)));
    }
  }

  /** The regex-only IdAttrParser leaves plain arrays under every child, so extraction from it
      never finds an id or an attribute; an input without a colon after its id throws. */
  lemma IdAttrParserExtractsNothing(s: string)
    ensures ExtractIdAttr(Parse(IdAttrParser(), s)) ==
      if ColonAfterId(s) then Success(IdAttrRef(None, None)) else Failure(ReferenceError("inString"))
  {
    var r := Parse(IdAttrParser(), s);
    assert r.status.Ok? <==> ColonAfterId(s) by {
      IdAttrParserAgrees(MatchList, s);
      IdAttrAccepts(MatchList, s);
    }
    if r.status.Ok? {
      var ms := IdAttrParserMatchers();
      assert r == Parse(Sequence(ms), s);
      var rs := Run(ms, s).results;
      assert r.children == Items([Node(rs[0]), Node(rs[1]), Node(rs[2])]) by {
        SequenceOfThree(ms, s);
      }
      assert rs[0].children.Items? && rs[2].children.Items? by {
        IdAttrParserTrace(ms, s);
      }
      ExtractFromArrays(r, rs[0], Node(rs[1]), rs[2]);
    }
  }

  /** Extraction from a result whose first and last children hold plain arrays. */
  lemma ExtractFromArrays(r: Result, first: Result, middle: Child, last: Result)
    requires r.status.Ok?
    requires r.children == Items([Node(first), middle, Node(last)])
    requires first.children.Items? && last.children.Items?
    ensures ExtractIdAttr(r) == Success(IdAttrRef(None, None))
  {
  }
}
