/**
 * Glob patterns: the regular-expression text they are compiled to, that text read back as a
 * regular expression, and the direct meaning of `*`, `**` and literal characters.
 */
module GlobMatcher {
  import opened Strings
  import opened Wrappers

  // ---------------------------------------------------------------------- compilation

  predicate StartsWith(s: string, t: string) {
    t <= s
  }

  /** pattern.split('**'): leftmost occurrences first. */
  function SplitStars(p: string): (parts: seq<string>)
    ensures |parts| > 0
  {
    if StartsWith(p, "**") then [""] + SplitStars(p[2..])
    else if p == "" then [""]
    else
      var rest := SplitStars(p[1..]);
      [[p[0]] + rest[0]] + rest[1..]
  }

  predicate Special(c: char) {
    c in {'.', '+', '^', '$', '{', '}', '(', ')', '|', '\\', '[', ']'}
  }

  function EscapeSpecials(s: string): string {
    if s == "" then ""
    else (if Special(s[0]) then ['\\', s[0]] else [s[0]]) + EscapeSpecials(s[1..])
  }

  const SEGMENT_RUN := "[^.\\n]*"
  const ANY_RUN := ".*"

  function ReplaceStars(s: string): string {
    if s == "" then "" else (if s[0] == '*' then SEGMENT_RUN else [s[0]]) + ReplaceStars(s[1..])
  }

  function RegexParts(segments: seq<string>): (r: seq<string>)
    ensures |r| == |segments|
  {
    seq(|segments|, i requires 0 <= i < |segments| => ReplaceStars(EscapeSpecials(segments[i])))
  }

  function GlobToRegexText(p: string): string {
    "^" + Join(RegexParts(SplitStars(p)), ANY_RUN) + "$"
  }

  // ---------------------------------------------------------------------- regular expressions

  /** A literal character, the dot, or the class of everything but a dot and a line feed. */
  datatype Atom = Lit(c: char) | Dot | NotDotOrNewline

  datatype Quantifier = One | Star(lazy: bool) | Opt(lazy: bool)

  datatype Item = Item(atom: Atom, quantifier: Quantifier)

  /** One atom and what follows it; None where the syntax is invalid or outside this fragment. */
  function ParseAtom(t: string): (r: Option<(Atom, string)>)
    ensures r.Some? ==> |r.value.1| < |t|
  {
    if t == "" then None
    else if t[0] == '\\' then
      if |t| > 1 && Special(t[1]) then Some((Lit(t[1]), t[2..])) else None
    else if t[0] == '.' then Some((Dot, t[1..]))
    else if StartsWith(t, "[^.\\n]") then Some((NotDotOrNewline, t[6..]))
    else if Special(t[0]) || t[0] == '*' || t[0] == '?' then None
    else Some((Lit(t[0]), t[1..]))
  }

  function ParseQuantifier(t: string): (r: (Quantifier, string))
    ensures |r.1| <= |t|
  {
    if t != "" && t[0] == '*' then
      if |t| > 1 && t[1] == '?' then (Star(true), t[2..]) else (Star(false), t[1..])
    else if t != "" && t[0] == '?' then
      if |t| > 1 && t[1] == '?' then (Opt(true), t[2..]) else (Opt(false), t[1..])
    else (One, t)
  }

  function ParseBody(t: string): Option<seq<Item>>
    decreases |t|
  {
    if t == "$" then Some([])
    else
      match ParseAtom(t)
      case None => None
      case Some((atom, rest)) =>
        var (quantifier, rest') := ParseQuantifier(rest);
        match ParseBody(rest')
        case None => None
        case Some(items) => Some([Item(atom, quantifier)] + items)
  }

  /** An anchored regular expression; None stands for a SyntaxError. */
  function ParseRegex(t: string): Option<seq<Item>> {
    if t != "" && t[0] == '^' then ParseBody(t[1..]) else None
  }

  predicate AtomMatches(a: Atom, c: char) {
    match a
    case Lit(d) => c == d
    case Dot => !LineTerminator(c)
    case NotDotOrNewline => c != '.' && c != '\n'
  }

  /** The language of an anchored regular expression; laziness does not change it. */
  predicate Accepts(items: seq<Item>, s: string)
    decreases |items| + |s|
  {
    if items == [] then s == ""
    else
      var rest, step := items[1..], s != "" && AtomMatches(items[0].atom, s[0]);
      match items[0].quantifier
      case One => step && Accepts(rest, s[1..])
      case Opt(_) => Accepts(rest, s) || (step && Accepts(rest, s[1..]))
      case Star(_) => Accepts(rest, s) || (step && Accepts(items, s[1..]))
  }

  /** globToRegex(pattern).test(value); a pattern that does not compile throws. */
  function GlobMatches(pattern: string, value: string): Option<bool> {
    match ParseRegex(GlobToRegexText(pattern))
    case None => None
    case Some(items) => Some(Accepts(items, value))
  }

  // ---------------------------------------------------------------------- direct meaning

  datatype Token = AnyRun | SegmentRun | Char(c: char)

  /** `**` is taken leftmost first. */
  function Tokens(p: string): seq<Token> {
    if p == "" then []
    else if StartsWith(p, "**") then [AnyRun] + Tokens(p[2..])
    else [if p[0] == '*' then SegmentRun else Char(p[0])] + Tokens(p[1..])
  }

  predicate SingleLine(s: string) {
    forall i :: 0 <= i < |s| ==> s[i] != '\n' && s[i] != '\r' && s[i] != '\U{2028}' && s[i] != '\U{2029}'
  }

  predicate OneSegment(s: string) {
    forall i :: 0 <= i < |s| ==> s[i] != '.' && s[i] != '\n'
  }

  /** `**` stands for any text on one line, `*` for any text without a dot or a line feed. */
  predicate Matches(ts: seq<Token>, s: string)
    decreases |ts|
  {
    if ts == [] then s == ""
    else
      match ts[0]
      case Char(c) => s != "" && s[0] == c && Matches(ts[1..], s[1..])
      case AnyRun => exists k :: 0 <= k <= |s| && SingleLine(s[..k]) && Matches(ts[1..], s[k..])
      case SegmentRun => exists k :: 0 <= k <= |s| && OneSegment(s[..k]) && Matches(ts[1..], s[k..])
  }

  predicate MatchesGlob(p: string, s: string) {
    Matches(Tokens(p), s)
  }

  // ---------------------------------------------------------------------- the emitted text

  /** The text of a token, character by character. */
  function TokenText(t: Token): (s: string)
    ensures s != ""
  {
    match t
    case AnyRun => ".*"
    case SegmentRun => "[^.\\n]*"
    case Char(c) => if c in ".+^${}()|[]\\" then ['\\', c] else [c]
  }

  function TokenTexts(ts: seq<Token>): string {
    if ts == [] then "" else TokenText(ts[0]) + TokenTexts(ts[1..])
  }

  lemma SpecialChars(c: char)
    ensures Special(c) <==> c in ".+^${}()|[]\\"
  {
  }

  lemma CompiledChar(c: char, s: string)
    ensures ReplaceStars(EscapeSpecials([c] + s)) == (if c == '*' then SEGMENT_RUN else TokenText(Char(c))) + ReplaceStars(EscapeSpecials(s))
  {
    SpecialChars(c);
    assert ([c] + s)[1..] == s;
    var rest := EscapeSpecials(s);
    if Special(c) {
      assert EscapeSpecials([c] + s) == ['\\', c] + rest;
      assert (['\\', c] + rest)[1..] == [c] + rest;
      assert ([c] + rest)[1..] == rest;
    } else {
      assert EscapeSpecials([c] + s) == [c] + rest;
      assert ([c] + rest)[1..] == rest;
    }
  }

  lemma RegexPartsCons(s: string, more: seq<string>)
    ensures RegexParts([s] + more) == [ReplaceStars(EscapeSpecials(s))] + RegexParts(more)
  {
  }

  /** Splitting, escaping and joining emits the text of one token after the other. */
  lemma {:induction false} EmittedText(p: string)
    ensures Join(RegexParts(SplitStars(p)), ANY_RUN) == TokenTexts(Tokens(p))
    decreases |p|
  {
    if StartsWith(p, "**") {
      EmittedText(p[2..]);
      var rest := SplitStars(p[2..]);
      RegexPartsCons("", rest);
      assert RegexParts(SplitStars(p))[1..] == RegexParts(rest);
      assert (([AnyRun] + Tokens(p[2..]))[1..]) == Tokens(p[2..]);
    } else if p == "" {
      assert RegexParts([""]) == [""];
    } else {
      EmittedText(p[1..]);
      var rest := SplitStars(p[1..]);
      var text := if p[0] == '*' then SEGMENT_RUN else TokenText(Char(p[0]));
      CompiledChar(p[0], rest[0]);
      RegexPartsCons([p[0]] + rest[0], rest[1..]);
      RegexPartsCons(rest[0], rest[1..]);
      assert [rest[0]] + rest[1..] == rest;
      JoinHead(text, ReplaceStars(EscapeSpecials(rest[0])), RegexParts(rest[1..]), ANY_RUN);
      var t := if p[0] == '*' then SegmentRun else Char(p[0]);
      assert ([t] + Tokens(p[1..]))[1..] == Tokens(p[1..]);
    }
  }

  // ---------------------------------------------------------------------- reading it back

  function AtomOf(t: Token): Atom {
    match t
    case AnyRun => Dot
    case SegmentRun => NotDotOrNewline
    case Char(c) => Lit(c)
  }

  const QUESTION := Char('?')

  predicate QuestionAt(ts: seq<Token>, i: nat) {
    i < |ts| && ts[i] == QUESTION
  }

  /** How many of the following tokens the quantifier of the first one takes, and that quantifier. */
  function Reach(ts: seq<Token>): (r: (Quantifier, nat))
    requires ts != []
    ensures 1 <= r.1 <= |ts|
  {
    if !ts[0].Char? then (if QuestionAt(ts, 1) then (Star(true), 2) else (Star(false), 1))
    else if QuestionAt(ts, 1) then (if QuestionAt(ts, 2) then (Opt(true), 3) else (Opt(false), 2))
    else (One, 1)
  }

  /** What the emitted text is read as: an unescaped question mark quantifies the token before it. */
  function Reread(ts: seq<Token>): Option<seq<Item>>
    decreases |ts|
  {
    if ts == [] then Some([])
    else if ts[0] == QUESTION then None
    else
      var (quantifier, n) := Reach(ts);
      match Reread(ts[n..])
      case None => None
      case Some(items) => Some([Item(AtomOf(ts[0]), quantifier)] + items)
  }

  predicate NoStarChars(ts: seq<Token>) {
    forall i :: 0 <= i < |ts| ==> ts[i] != Char('*')
  }

  lemma {:induction false} TokensHaveNoStar(p: string)
    ensures NoStarChars(Tokens(p))
    decreases |p|
  {
    if p != "" {
      TokensHaveNoStar(if StartsWith(p, "**") then p[2..] else p[1..]);
    }
  }

  /** The text after a token, up to the end anchor, starts with '?' exactly when the next token is one, and never with '*'. */
  lemma NextChar(ts: seq<Token>)
    requires NoStarChars(ts)
    ensures var t := TokenTexts(ts) + "$"; t[0] != '*' && (t[0] == '?' <==> QuestionAt(ts, 0))
  {
    if ts != [] {
      var t := TokenTexts(ts) + "$";
      assert t[0] == TokenText(ts[0])[0];
    }
  }

  lemma TextStep(ts: seq<Token>)
    requires ts != []
    ensures TokenTexts(ts) + "$" == TokenText(ts[0]) + (TokenTexts(ts[1..]) + "$")
  {
  }

  lemma ReadAtom(t: Token, rest: string)
    requires t != QUESTION && t != Char('*')
    ensures t.Char? ==> ParseAtom(TokenText(t) + rest) == Some((Lit(t.c), rest))
    ensures !t.Char? ==> ParseAtom(TokenText(t) + rest) == Some((AtomOf(t), "*" + rest))
  {
    var text := TokenText(t) + rest;
    match t
    case AnyRun => assert text[1..] == "*" + rest;
    case SegmentRun =>
      assert "[^.\\n]" <= text;
      assert text[6..] == "*" + rest;
    case Char(c) =>
      SpecialChars(c);
      if Special(c) { assert text[2..] == rest; } else { assert text[1..] == rest; }
  }

  lemma QuestionStep(ts: seq<Token>)
    requires QuestionAt(ts, 0)
    ensures TokenTexts(ts) + "$" == "?" + (TokenTexts(ts[1..]) + "$")
  {
  }

  lemma ReadQuantifier(ts: seq<Token>)
    requires ts != [] && NoStarChars(ts)
    ensures ParseQuantifier((if ts[0].Char? then "" else "*") + (TokenTexts(ts[1..]) + "$")) ==
      (Reach(ts).0, TokenTexts(ts[Reach(ts).1..]) + "$")
  {
    var next := TokenTexts(ts[1..]) + "$";
    NextChar(ts[1..]);
    if QuestionAt(ts, 1) {
      QuestionStep(ts[1..]);
      assert ts[1..][1..] == ts[2..];
      var after := TokenTexts(ts[2..]) + "$";
      NextChar(ts[2..]);
      assert next == "?" + after;
      assert next[1..] == after;
      if QuestionAt(ts, 2) {
        QuestionStep(ts[2..]);
        assert ts[2..][1..] == ts[3..];
        assert after[1..] == TokenTexts(ts[3..]) + "$";
        assert next[2..] == after[1..];
      }
      assert ("*" + next)[2..] == after;
    }
    assert "" + next == next;
    assert ("*" + next)[1..] == next;
  }

  /** The regular-expression parser reads the emitted text exactly as the tokens say. */
  lemma {:induction false} ReadBack(ts: seq<Token>)
    requires NoStarChars(ts)
    ensures ParseBody(TokenTexts(ts) + "$") == Reread(ts)
    decreases |ts|
  {
    var t := TokenTexts(ts) + "$";
    if ts == [] {
      assert t == "$";
    } else if ts[0] == QUESTION {
      QuestionStep(ts);
    } else {
      TextStep(ts);
      ReadAtom(ts[0], TokenTexts(ts[1..]) + "$");
      ReadQuantifier(ts);
      ReadBack(ts[Reach(ts).1..]);
      assert "" + (TokenTexts(ts[1..]) + "$") == TokenTexts(ts[1..]) + "$";
    }
  }

  lemma CompiledRegex(p: string)
    ensures ParseRegex(GlobToRegexText(p)) == Reread(Tokens(p))
  {
    EmittedText(p);
    TokensHaveNoStar(p);
    ReadBack(Tokens(p));
    var body := TokenTexts(Tokens(p)) + "$";
    assert GlobToRegexText(p) == "^" + body;
    assert GlobToRegexText(p)[1..] == body;
  }
}
