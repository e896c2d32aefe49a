/**
 * The compiled regular expression means what the glob means exactly for patterns without a
 * question mark.
 */
module GlobMeaning {
  import opened Wrappers
  import opened GlobMatcher

  /** A run of characters an atom accepts. */
  predicate Run(a: Atom, s: string) {
    forall i :: 0 <= i < |s| ==> AtomMatches(a, s[i])
  }

  /** A run of length k, then the rest. */
  predicate SplitsAt(a: Atom, rest: seq<Item>, s: string, k: nat) {
    k <= |s| && Run(a, s[..k]) && Accepts(rest, s[k..])
  }

  /** A star accepts a run of any length, then the rest. */
  lemma {:induction false} StarIsRun(items: seq<Item>, s: string)
    requires items != [] && items[0].quantifier.Star?
    ensures Accepts(items, s) <==> exists k: nat :: SplitsAt(items[0].atom, items[1..], s, k)
    decreases |s|
  {
    var a, rest := items[0].atom, items[1..];
    assert s[0..] == s && s[..0] == "";
    if Accepts(rest, s) {
      assert SplitsAt(a, rest, s, 0);
    }
    if s != "" && AtomMatches(a, s[0]) {
      StarIsRun(items, s[1..]);
      if k: nat :| SplitsAt(a, rest, s[1..], k) {
        LongerRun(a, s, k);
        assert SplitsAt(a, rest, s, k + 1);
      }
    }
    if k: nat :| SplitsAt(a, rest, s, k) && k > 0 {
      ShorterRun(a, s, k);
      assert SplitsAt(a, rest, s[1..], k - 1);
    }
  }

  lemma LongerRun(a: Atom, s: string, k: nat)
    requires s != "" && AtomMatches(a, s[0]) && k <= |s| - 1 && Run(a, s[1..][..k])
    ensures Run(a, s[..k + 1]) && s[1..][k..] == s[k + 1..]
  {
    var u := s[..k + 1];
    forall i | 0 <= i < |u| ensures AtomMatches(a, u[i]) {
      if i > 0 { assert u[i] == s[1..][..k][i - 1]; }
    }
  }

  lemma ShorterRun(a: Atom, s: string, k: nat)
    requires 0 < k <= |s| && Run(a, s[..k])
    ensures AtomMatches(a, s[0]) && Run(a, s[1..][..k - 1]) && s[1..][k - 1..] == s[k..]
  {
    assert s[0] == s[..k][0];
    var u := s[1..][..k - 1];
    forall i | 0 <= i < |u| ensures AtomMatches(a, u[i]) {
      assert u[i] == s[..k][i + 1];
    }
  }

  predicate NoQuestion(ts: seq<Token>) {
    forall i :: 0 <= i < |ts| ==> ts[i] != QUESTION
  }

  lemma RunMeaning(s: string)
    ensures Run(Dot, s) <==> SingleLine(s)
    ensures Run(NotDotOrNewline, s) <==> OneSegment(s)
  {
  }

  /** Token by token, the expression read back accepts what the glob matches. */
  lemma {:induction false} SameLanguage(ts: seq<Token>, s: string)
    requires NoQuestion(ts)
    ensures Reread(ts).Some? && (Accepts(Reread(ts).value, s) <==> Matches(ts, s))
    decreases |ts|
  {
    if ts != [] {
      var rest := ts[1..];
      SameLanguage(rest, "");
      var items := Reread(ts).value;
      assert Reach(ts) == (if ts[0].Char? then One else Star(false), 1);
      assert items[0].atom == AtomOf(ts[0]) && items[1..] == Reread(rest).value;
      if ts[0].Char? {
        if s != "" {
          SameLanguage(rest, s[1..]);
        }
      } else {
        StarIsRun(items, s);
        forall k: nat | k <= |s|
          ensures SplitsAt(items[0].atom, items[1..], s, k) <==>
            Matches(rest, s[k..]) && if ts[0] == AnyRun then SingleLine(s[..k]) else OneSegment(s[..k])
        {
          SameLanguage(rest, s[k..]);
          RunMeaning(s[..k]);
        }
      }
    }
  }

  // ---------------------------------------------------------------------- question marks

  /** A shortest text of the language: one character per unquantified atom. */
  function Shortest(items: seq<Item>): string {
    if items == [] then ""
    else
      (if items[0].quantifier == One then [if items[0].atom.Lit? then items[0].atom.c else 'x'] else "") + Shortest(items[1..])
  }

  lemma {:induction false} ShortestAccepted(items: seq<Item>)
    ensures Accepts(items, Shortest(items))
  {
    if items != [] {
      ShortestAccepted(items[1..]);
      if items[0].quantifier == One {
        assert Shortest(items)[1..] == Shortest(items[1..]);
      } else {
        assert "" + Shortest(items[1..]) == Shortest(items[1..]);
      }
    }
  }

  predicate NoQuestionLiteral(items: seq<Item>) {
    forall i :: 0 <= i < |items| ==> items[i].atom != Lit('?')
  }

  lemma {:induction false} RereadHasNoQuestion(ts: seq<Token>)
    requires Reread(ts).Some?
    ensures NoQuestionLiteral(Reread(ts).value)
    decreases |ts|
  {
    if ts != [] {
      RereadHasNoQuestion(ts[Reach(ts).1..]);
    }
  }

  lemma {:induction false} ShortestHasNoQuestion(items: seq<Item>)
    requires NoQuestionLiteral(items)
    ensures '?' !in Shortest(items)
  {
    if items != [] {
      ShortestHasNoQuestion(items[1..]);
    }
  }

  /** A text the glob matches contains every literal character of the pattern. */
  lemma {:induction false} MatchContainsChars(ts: seq<Token>, s: string, c: char)
    requires Matches(ts, s) && Char(c) in ts
    ensures c in s
    decreases |ts|
  {
    if ts[0] != Char(c) {
      assert Char(c) in ts[1..];
    }
    match ts[0]
    case Char(d) =>
      if d != c { MatchContainsChars(ts[1..], s[1..], c); }
    case AnyRun =>
      var k :| 0 <= k <= |s| && SingleLine(s[..k]) && Matches(ts[1..], s[k..]);
      MatchContainsChars(ts[1..], s[k..], c);
    case SegmentRun =>
      var k :| 0 <= k <= |s| && OneSegment(s[..k]) && Matches(ts[1..], s[k..]);
      MatchContainsChars(ts[1..], s[k..], c);
  }

  lemma {:induction false} QuestionToken(p: string)
    ensures QUESTION in Tokens(p) <==> '?' in p
    decreases |p|
  {
    if p != "" {
      var n := if StartsWith(p, "**") then 2 else 1;
      QuestionToken(p[n..]);
      assert p == p[..n] + p[n..];
      assert '?' in p <==> '?' in p[..n] || '?' in p[n..];
      assert n == 2 ==> p[..n] == "**";
    }
  }

  /** Compilation succeeds and the compiled expression matches exactly what the glob matches. */
  ghost predicate CompilesFaithfully(p: string) {
    forall s :: GlobMatches(p, s) == Some(MatchesGlob(p, s))
  }

  /** The translation preserves the meaning of a pattern exactly when it has no question mark. */
  lemma TranslationFaithful(p: string)
    ensures CompilesFaithfully(p) <==> '?' !in p
  {
    var ts := Tokens(p);
    CompiledRegex(p);
    QuestionToken(p);
    if '?' !in p {
      assert NoQuestion(ts);
      forall s ensures GlobMatches(p, s) == Some(MatchesGlob(p, s)) {
        SameLanguage(ts, s);
      }
    } else if Reread(ts).Some? {
      var items := Reread(ts).value;
      var s := Shortest(items);
      ShortestAccepted(items);
      RereadHasNoQuestion(ts);
      ShortestHasNoQuestion(items);
      if Matches(ts, s) {
        MatchContainsChars(ts, s, '?');
      }
      assert GlobMatches(p, s) != Some(MatchesGlob(p, s));
    } else {
      assert GlobMatches(p, "") != Some(MatchesGlob(p, ""));
    }
  }
}
