/** The regular expressions used as terminals, replaced by a fixed set of token classes.
    Each class is "one start character, then any number of continuing characters", which
    a greedy regex matches by taking the longest such word. */
module Tokens {
  import opened Outcomes

  predicate IsLetter(c: char) { 'a' <= c <= 'z' || 'A' <= c <= 'Z' }

  predicate IsDigit(c: char) { '0' <= c <= '9' }

  /** `\w` of a regex without the `u` flag: ASCII letters, digits and underscore. */
  predicate IsWord(c: char) { IsLetter(c) || IsDigit(c) || c == '_' }

  datatype TokenClass =
    | ElementId        // [a-zA-Z_][\w\.]*
    | AttributeName    // [a-zA-Z_]\w*
    | Literal(c: char) // a single literal character such as `:` or ` `

  /** May `c` begin a word of class `t`? */
  predicate Starts(t: TokenClass, c: char) {
    match t
    case Literal(l) => c == l
    case _ => IsLetter(c) || c == '_'
  }

  /** May `c` follow the first character of a word of class `t`? */
  predicate Continues(t: TokenClass, c: char) {
    match t
    case ElementId => IsWord(c) || c == '.'
    case AttributeName => IsWord(c)
    case Literal(_) => false
  }

  /** The language of a token class. */
  predicate InToken(t: TokenClass, w: string) {
    |w| > 0 && Starts(t, w[0]) && forall k :: 1 <= k < |w| ==> Continues(t, w[k])
  }

  /** Number of consecutive continuing characters of `s` from position `i` on. */
  function Span(t: TokenClass, s: string, i: nat): (n: nat)
    requires i <= |s|
    ensures i + n <= |s|
    ensures forall k :: i <= k < i + n ==> Continues(t, s[k])
    ensures i + n == |s| || !Continues(t, s[i + n])
    decreases |s| - i
  {
    if i < |s| && Continues(t, s[i]) then 1 + Span(t, s, i + 1) else 0
  }

  /** Length of the longest word of class `t` that starts at position `i` of `s`, if there is one. */
  function TokenAt(t: TokenClass, s: string, i: nat): (r: Option<nat>)
    requires i <= |s|
    ensures r.Some? <==> i < |s| && Starts(t, s[i])
    ensures r.Some? ==> 1 <= r.value && i + r.value <= |s|
  {
    if i < |s| && Starts(t, s[i]) then Some(1 + Span(t, s, i + 1)) else None
  }

  /** TokenAt finds the longest word of the class at `i`, and finds none only when no
      non-empty prefix of `s[i..]` is in the class. */
  lemma TokenAtLongest(t: TokenClass, s: string, i: nat)
    requires i <= |s|
    ensures var r := TokenAt(t, s, i);
      && (r.Some? ==> InToken(t, s[i..i + r.value]))
      && (r.Some? ==> forall n :: i + r.value < n <= |s| ==> !InToken(t, s[i..n]))
      && (r.None? ==> forall n :: i <= n <= |s| ==> !InToken(t, s[i..n]))
  {
    var r := TokenAt(t, s, i);
    if r.Some? {
      var n := r.value;
      var w := s[i..i + n];
      assert forall k :: 1 <= k < n ==> w[k] == s[i + k];
      forall m | i + n < m <= |s|
        ensures !InToken(t, s[i..m])
      {
        assert s[i..m][n] == s[i + n];
      }
    } else {
      assert forall m :: i < m <= |s| ==> s[i..m][0] == s[i];
    }
  }

  /** A terminal pattern: a token class, possibly wrapped in an optional group `( … )?`,
      possibly anchored with a leading `^`. */
  datatype Pattern = Pattern(token: TokenClass, optional: bool, anchored: bool)

  /** The language of a pattern, ignoring where it is anchored. */
  predicate InPattern(p: Pattern, w: string) {
    (p.optional && w == []) || InToken(p.token, w)
  }

  /** Length of the greedy match of `p` at position `i` of `s`, if it matches there at all.
      An optional group always matches, possibly with the empty word. */
  function PatternAt(p: Pattern, s: string, i: nat): (r: Option<nat>)
    requires i <= |s|
    ensures p.optional ==> r.Some?
    ensures !p.optional ==> (r.Some? <==> i < |s| && Starts(p.token, s[i]))
    ensures r.Some? ==> i + r.value <= |s|
  {
    var t := TokenAt(p.token, s, i);
    if p.optional then Some(t.GetOr(0)) else t
  }

  /** PatternAt finds the longest word of the pattern's language at `i`, and finds none only
      when no prefix of `s[i..]` is in that language. */
  lemma {:induction false} PatternAtLongest(p: Pattern, s: string, i: nat)
    requires i <= |s|
    ensures var r := PatternAt(p, s, i);
      && (r.Some? ==> InPattern(p, s[i..i + r.value]))
      && (r.Some? ==> forall n :: i + r.value < n <= |s| ==> !InPattern(p, s[i..n]))
      && (r.None? ==> forall n :: i <= n <= |s| ==> !InPattern(p, s[i..n]))
  {
    TokenAtLongest(p.token, s, i);
  }

  /** Characters that a regex source escapes when they stand for themselves. */
  const Metacharacters: string := "\\^$.|?*+()[]{}/"

  function TokenSource(t: TokenClass): string {
    match t
    case ElementId => "[a-zA-Z_][\\w\\.]*"
    case AttributeName => "[a-zA-Z_]\\w*"
    case Literal(c) => if c in Metacharacters then ['\\', c] else [c]
  }

  /** The `source` text of the regex the pattern stands for. */
  function Source(p: Pattern): (src: string)
    ensures |src| > 0 && (src[0] == '^' <==> p.anchored)
  {
    var body := if p.optional then "(" + TokenSource(p.token) + ")?" else TokenSource(p.token);
    assert body[0] != '^';
    if p.anchored then "^" + body else body
  }

  /** `RegExp("^" + source)` applied when the source does not already start with `^`. */
  function Anchor(p: Pattern): (a: Pattern)
    ensures a == p.(anchored := true)
    ensures Source(a) == if p.anchored then Source(p) else "^" + Source(p)
  {
    if Source(p)[0] == '^' then p else p.(anchored := true)
  }

  /** Where a regex match starts and how long it is. */
  datatype Hit = Hit(start: nat, len: nat)

  /** The leftmost position at or after `i` where `p` matches, with its greedy length. */
  function Search(p: Pattern, s: string, i: nat): (h: Option<Hit>)
    requires i <= |s|
    ensures h.Some? ==> i <= h.value.start && h.value.start + h.value.len <= |s|
    ensures h.Some? ==> PatternAt(p, s, h.value.start) == Some(h.value.len)
    ensures h.Some? ==> forall j :: i <= j < h.value.start ==> PatternAt(p, s, j).None?
    ensures h.None? ==> forall j :: i <= j <= |s| ==> PatternAt(p, s, j).None?
    decreases |s| - i
  {
    match PatternAt(p, s, i)
    case Some(n) => Some(Hit(i, n))
    case None => if i == |s| then None else Search(p, s, i + 1)
  }

  /** `s.match(regex)`: an anchored pattern is tried at position 0 only, an unanchored one
      at the leftmost position where it matches. */
  function Find(p: Pattern, s: string): (h: Option<Hit>)
    ensures h.Some? ==> h.value.start + h.value.len <= |s|
    ensures p.anchored ==> h == (match PatternAt(p, s, 0) case Some(n) => Some(Hit(0, n)) case None => None)
    ensures !p.anchored ==> h == Search(p, s, 0)
  {
    if p.anchored then
      match PatternAt(p, s, 0)
      case Some(n) => Some(Hit(0, n))
      case None => None
    else Search(p, s, 0)
  }
}
