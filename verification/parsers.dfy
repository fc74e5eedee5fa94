/** The parser-combinator kernel: parse results, the matching primitive and the Sequence combinator. */
module Parsers {
  import opened Outcomes
  import opened Tokens

  /** "ok", or the reason a match failed. */
  datatype Status = Ok | Fail(reason: string)

  /** What a combinator is built from: a terminal pattern, or another parser. */
  datatype Matcher =
    | Terminal(pattern: Pattern)
    | Composite(parser: Parser)

  /** How an Optional parser lays out its result when its matcher succeeded. The Optional
      combinator is defined elsewhere in the site's scripts and not modelled, so its layout
      is a parameter:
      `MatchList` puts the inner match result in the children array (as Sequence does),
      `MatchRecord` makes the inner match result itself the `children` value. */
  datatype OptionalShape = MatchList | MatchRecord

  datatype Parser =
    | Sequence(matchers: seq<Matcher>)
    | Optional(inner: Matcher, shape: OptionalShape)

  /** One entry of a children array: matched text (under a terminal) or a nested result. */
  datatype Child = Text(text: string) | Node(result: Result)

  /** The `children` value of a result: an array, or (for `MatchRecord`) a result object. */
  datatype Children = Items(items: seq<Child>) | Record(record: Result)

  /** A parse-tree node: which matcher produced it, its children, how many characters it consumed. */
  datatype Result = Result(matcher: Matcher, children: Children, length: nat, status: Status)

  /** What `match` returns: the result and the input left for the next matcher. */
  datatype Step = Step(result: Result, rest: string)

  /** The results of running a list of matchers one after another, and the final remainder. */
  datatype Trace = Trace(results: seq<Result>, rest: string)

  /** `s.slice(n)`. */
  function Slice(s: string, n: nat): string {
    if n <= |s| then s[n..] else []
  }

  /** Sum of the consumed lengths. */
  function Total(rs: seq<Result>): nat {
    if |rs| == 0 then 0 else rs[0].length + Total(rs[1..])
  }

  /** The failure reasons among `rs`, in order. */
  function Failures(rs: seq<Result>): (fs: seq<string>)
    ensures |fs| == 0 <==> forall i :: 0 <= i < |rs| ==> rs[i].status.Ok?
  {
    if |rs| == 0 then []
    else (if rs[0].status.Fail? then [rs[0].status.reason] else []) + Failures(rs[1..])
  }

  /** Every failed result contributes its reason to the failures. */
  lemma {:induction false} FailuresComplete(rs: seq<Result>)
    ensures forall i :: 0 <= i < |rs| && rs[i].status.Fail? ==> rs[i].status.reason in Failures(rs)
  {
    if |rs| > 0 {
      var tail := rs[1..];
      FailuresComplete(tail);
      forall i | 0 <= i < |rs| && rs[i].status.Fail? ensures rs[i].status.reason in Failures(rs) {
        if i > 0 { assert rs[i] == tail[i - 1]; }
      }
    }
  }

  /** Every failure reason comes from a failed result. */
  lemma {:induction false} FailuresSound(rs: seq<Result>)
    ensures forall f :: f in Failures(rs) ==> exists i :: 0 <= i < |rs| && rs[i].status == Fail(f)
  {
    if |rs| > 0 {
      var tail := rs[1..];
      FailuresSound(tail);
      forall f | f in Failures(rs) ensures exists i :: 0 <= i < |rs| && rs[i].status == Fail(f) {
        if rs[0].status.Fail? && f == rs[0].status.reason {
          assert rs[0].status == Fail(f);
        } else {
          assert f in Failures(tail);
          var k :| 0 <= k < |tail| && tail[k].status == Fail(f);
          assert rs[k + 1] == tail[k];
        }
      }
    }
  }

  /** The failures are in matcher order: the first is the reason of the first failed result,
      and the rest are the failures of the results after it. */
  lemma {:induction false} FailuresFirst(rs: seq<Result>, i: nat)
    requires i < |rs| && rs[i].status.Fail?
    requires forall j :: 0 <= j < i ==> rs[j].status.Ok?
    ensures Failures(rs) == [rs[i].status.reason] + Failures(rs[i + 1..])
    decreases i
  {
    if i > 0 {
      var tail := rs[1..];
      assert tail[i - 1] == rs[i];
      assert tail[i..] == rs[i + 1..];
      FailuresFirst(tail, i - 1);
    }
  }

  /** `Array.prototype.join`. */
  function Join(parts: seq<string>, sep: string): string {
    if |parts| == 0 then []
    else if |parts| == 1 then parts[0]
    else parts[0] + sep + Join(parts[1..], sep)
  }

  function Nodes(rs: seq<Result>): (cs: seq<Child>)
    ensures |cs| == |rs| && forall i :: 0 <= i < |rs| ==> cs[i] == Node(rs[i])
  {
    seq(|rs|, i requires 0 <= i < |rs| => Node(rs[i]))
  }

  /** `Parser.match`: apply a terminal at the start of the input, or delegate to a sub-parser. */
  function Match(m: Matcher, s: string): (st: Step)
    ensures st.result.matcher == m
    ensures st.result.length <= |s| && st.rest == s[st.result.length..]
    ensures st.result.status.Fail? ==> st.result.length == 0 && st.result.children == Items([])
    decreases m
  {
    match m
    case Terminal(p) =>
      (match Find(p, s)
       case Some(h) =>
         Step(Result(m, Items([Text(s[h.start..h.start + h.len])]), h.len, Ok), Slice(s, h.len))
       case None =>
         Step(Result(m, Items([]), 0, Fail("NoMatch(" + Source(p) + ")")), s))
    case Composite(q) =>
      var r := Parse(q, s);
      if r.status.Ok? then Step(Result(m, r.children, r.length, Ok), Slice(s, r.length))
      else Step(Result(m, Items([]), 0, r.status), s)
  }

  /** Run every matcher in turn, each on the input the previous one left. */
  function Run(ms: seq<Matcher>, s: string): (t: Trace)
    ensures |t.results| == |ms|
    ensures Total(t.results) <= |s| && t.rest == s[Total(t.results)..]
    decreases ms
  {
    if |ms| == 0 then Trace([], s)
    else
      var st := Match(ms[0], s);
      var t := Run(ms[1..], st.rest);
      Trace([st.result] + t.results, t.rest)
  }

  /** `parse` of each combinator. */
  function Parse(q: Parser, s: string): (r: Result)
    ensures r.matcher == Composite(q)
    ensures r.length <= |s|
    ensures r.status.Fail? ==> r.length == 0 && r.children == Items([])
    decreases q
  {
    match q
    case Sequence(ms) =>
      var t := Run(ms, s);
      var fails := Failures(t.results);
      if |fails| == 0 then Result(Composite(q), Items(Nodes(t.results)), Total(t.results), Ok)
      else Result(Composite(q), Items([]), 0, Fail(Join(fails, ", ")))
    case Optional(inner, shape) =>
      var st := Match(inner, s);
      if st.result.status.Ok? then
        var children := if shape == MatchList then Items([Node(st.result)]) else Record(st.result);
        Result(Composite(q), children, st.result.length, Ok)
      else Result(Composite(q), Items([]), 0, Ok)
  }

  /** A terminal is re-anchored at the start of the input; a sub-parser is kept as it is. */
  function AnchorMatcher(m: Matcher): Matcher {
    match m
    case Terminal(p) => Terminal(Anchor(p))
    case Composite(_) => m
  }

  /** The Sequence constructor: every regex whose source does not start with `^` gets one, and
      sub-parsers are kept as they are. */
  function NewSequence(ms: seq<Matcher>): (r: Parser)
    ensures r.Sequence? && |r.matchers| == |ms|
    ensures forall i :: 0 <= i < |ms| && ms[i].Terminal? ==>
      var a := r.matchers[i];
      && a.Terminal? && a.pattern.anchored
      && a.pattern.token == ms[i].pattern.token && a.pattern.optional == ms[i].pattern.optional
      && Source(a.pattern) == (if ms[i].pattern.anchored then "" else "^") + Source(ms[i].pattern)
    ensures forall i :: 0 <= i < |ms| && ms[i].Composite? ==> r.matchers[i] == ms[i]
  {
    Sequence(seq(|ms|, i requires 0 <= i < |ms| => AnchorMatcher(ms[i])))
  }

  /** The Optional constructor, assumed to anchor its terminal as the Sequence constructor does. */
  function NewOptional(inner: Matcher, shape: OptionalShape): Parser {
    Optional(AnchorMatcher(inner), shape)
  }

  /** The input the `i`-th matcher of a sequence sees. */
  function InputAt(ms: seq<Matcher>, s: string, i: nat): string
    requires i <= |ms|
  {
    Run(ms[..i], s).rest
  }

  /** An anchored terminal either consumes the longest prefix of the input in its language,
      with that prefix as its only child, or fails with `NoMatch(<source>)` and consumes nothing. */
  lemma AnchoredTerminalMatch(p: Pattern, s: string)
    requires p.anchored
    ensures var st := Match(Terminal(p), s);
      if st.result.status.Ok? then
        var w := s[..st.result.length];
        && st.result.children == Items([Text(w)])
        && s == w + st.rest
        && InPattern(p, w)
        && forall n :: st.result.length < n <= |s| ==> !InPattern(p, s[..n])
      else
        && st.result.status == Fail("NoMatch(" + Source(p) + ")")
        && st.result.length == 0 && st.result.children == Items([])
        && st.rest == s
        && forall n :: 0 <= n <= |s| ==> !InPattern(p, s[..n])
  {
    var st := Match(Terminal(p), s);
    var pa := PatternAt(p, s, 0);
    AnchoredStep(p, s);
    LongestAtStart(p, s);
    if pa.Some? {
      var n := pa.value;
      assert st.result.status.Ok? && st.result.length == n && st.rest == s[n..];
      assert st.result.children == Items([Text(s[..n])]);
      assert s == s[..n] + s[n..];
    } else {
      assert st.result.status.Fail? && st.rest == s;
    }
  }

  /** PatternAtLongest at the start of the input, in terms of prefixes `s[..n]`. */
  lemma LongestAtStart(p: Pattern, s: string)
    ensures var r := PatternAt(p, s, 0);
      && (r.Some? ==> InPattern(p, s[..r.value]))
      && (r.Some? ==> forall n :: r.value < n <= |s| ==> !InPattern(p, s[..n]))
      && (r.None? ==> forall n :: 0 <= n <= |s| ==> !InPattern(p, s[..n]))
  {
    PatternAtLongest(p, s, 0);
    forall n | 0 <= n <= |s| ensures s[0..n] == s[..n] {
    }
  }

  /** One anchored terminal, in terms of the greedy match at the start of the input. */
  lemma AnchoredStep(p: Pattern, s: string)
    requires p.anchored
    ensures var st := Match(Terminal(p), s);
      match PatternAt(p, s, 0)
      case Some(n) => st == Step(Result(Terminal(p), Items([Text(s[..n])]), n, Ok), s[n..])
      case None => st == Step(Result(Terminal(p), Items([]), 0, Fail("NoMatch(" + Source(p) + ")")), s)
  {
    var pa := PatternAt(p, s, 0);
    if pa.Some? {
      assert s[0..0 + pa.value] == s[..pa.value];
    }
  }

  /** Without the anchor, a terminal that matches further into the input still drops its length
      from the FRONT of the input: on "a:b" the literal `:` matches, yet the remainder is ":b". */
  lemma UnanchoredTerminalDropsFromFront()
    ensures var st := Match(Terminal(Pattern(Literal(':'), false, false)), "a:b");
      && st.result.status == Ok
      && st.result.children == Items([Text(":")])
      && st.rest == ":b"
  {
    var p := Pattern(Literal(':'), false, false);
    var s := "a:b";
    assert s[0] == 'a' && s[1] == ':';
    assert PatternAt(p, s, 0).None?;
    assert PatternAt(p, s, 1) == Some(1);
    assert Search(p, s, 1) == Some(Hit(1, 1));
    assert Search(p, s, 0) == Some(Hit(1, 1));
    assert Find(p, s) == Some(Hit(1, 1));
    assert s[1..2] == ":";
    assert Slice(s, 1) == ":b";
  }

  /** Wrapping a sub-parser's result under its matcher changes nothing: on success the children
      and length are kept and the remainder is the input minus that length; on failure the
      reason is propagated and nothing is consumed. */
  lemma CompositeMatch(q: Parser, s: string)
    ensures var st := Match(Composite(q), s);
      && st.result == Parse(q, s)
      && st.rest == s[Parse(q, s).length..]
      && (st.result.status.Fail? ==> st.rest == s)
  {
  }

  /** Run visits every matcher, failed or not: the `i`-th result is the `i`-th matcher applied
      to the remainder its predecessors left, and a failing matcher passes its input on unchanged. */
  lemma {:induction false} RunThreadsInput(ms: seq<Matcher>, s: string, i: nat)
    requires i < |ms|
    ensures var st := Match(ms[i], InputAt(ms, s, i));
      && Run(ms, s).results[i] == st.result
      && InputAt(ms, s, i + 1) == st.rest
      && (st.result.status.Fail? ==> InputAt(ms, s, i + 1) == InputAt(ms, s, i))
    decreases i
  {
    if i == 0 {
      RunThreadsFirst(ms, s);
    } else {
      var rest := Match(ms[0], s).rest;
      var tail := ms[1..];
      RunThreadsInput(tail, rest, i - 1);
      InputAtCons(ms, s, i);
      InputAtCons(ms, s, i + 1);
      assert Run(ms, s).results[i] == Run(tail, rest).results[i - 1] by {
        RunCons(ms, s);
      }
      assert tail[i - 1] == ms[i];
    }
  }

  /** The first matcher sees the whole input. */
  lemma RunThreadsFirst(ms: seq<Matcher>, s: string)
    requires 0 < |ms|
    ensures var st := Match(ms[0], InputAt(ms, s, 0));
      && Run(ms, s).results[0] == st.result
      && InputAt(ms, s, 1) == st.rest
  {
    InputAtZero(ms, s);
    InputAtOne(ms, s);
    RunCons(ms, s);
  }

  lemma InputAtZero(ms: seq<Matcher>, s: string)
    ensures InputAt(ms, s, 0) == s
  {
    assert ms[..0] == [];
  }

  lemma InputAtOne(ms: seq<Matcher>, s: string)
    requires 0 < |ms|
    ensures InputAt(ms, s, 1) == Match(ms[0], s).rest
  {
    assert ms[..1] == [ms[0]];
    RunCons([ms[0]], s);
    assert [ms[0]][1..] == [];
  }

  /** The input the `i`-th matcher sees is what the later matchers see once the first one has run. */
  lemma InputAtCons(ms: seq<Matcher>, s: string, i: nat)
    requires 0 < i <= |ms|
    ensures InputAt(ms, s, i) == InputAt(ms[1..], Match(ms[0], s).rest, i - 1)
  {
    RunCons(ms[..i], s);
    assert ms[..i][0] == ms[0];
    assert ms[..i][1..] == ms[1..][..i - 1];
  }

  /** One step of Run: the first matcher on the input, the rest on what it left. */
  lemma RunCons(ms: seq<Matcher>, s: string)
    requires |ms| > 0
    ensures var st := Match(ms[0], s);
      var t := Run(ms[1..], st.rest);
      Run(ms, s) == Trace([st.result] + t.results, t.rest)
  {
  }

  /** A sequence succeeds exactly when every matcher does. It then has one child per matcher,
      in order, and consumes the sum of their lengths, which is the input length minus the
      final remainder. Otherwise its reason is the failing reasons joined by ", " in matcher
      order, with no children and no length. */
  lemma SequenceParse(ms: seq<Matcher>, s: string)
    ensures var r := Parse(Sequence(ms), s);
      var t := Run(ms, s);
      && (r.status.Ok? <==> forall i :: 0 <= i < |ms| ==> t.results[i].status.Ok?)
      && (r.status.Ok? ==>
            && r.children.Items?
            && |r.children.items| == |ms|
            && (forall i :: 0 <= i < |ms| ==> r.children.items[i] == Node(t.results[i]))
            && r.length == Total(t.results) == |s| - |t.rest|)
      && (r.status.Fail? ==>
            && r.status.reason == Join(Failures(t.results), ", ")
            && r.length == 0 && r.children == Items([]))
  {
  }
}
