/**
 * Static overlap of glob patterns, part by part, against the patterns' meaning: when two patterns
 * have an action in common, and exactly when the analysis misses that or reports it falsely.
 */
module ConflictDetector {
  import opened Strings
  import opened Wrappers
  import opened GlobMatcher
  import opened GlobMeaning

  function PartAt(parts: seq<string>, i: nat): string {
    if i < |parts| then parts[i] else ""
  }

  function Longer(a: seq<string>, b: seq<string>): nat {
    if |a| > |b| then |a| else |b|
  }

  /** Two parts at the same position rule an overlap out. */
  predicate Clash(a: string, b: string) {
    a != "*" && b != "*" && a != "" && b != "" && a != b
  }

  predicate CanOverlap(a: string, b: string) {
    var aParts, bParts := Split(a, '.'), Split(b, '.');
    || a == b || a == "**" || b == "**" || "**" in aParts || "**" in bParts
    || forall i :: 0 <= i < Longer(aParts, bParts) ==> !Clash(PartAt(aParts, i), PartAt(bParts, i))
  }

  method GlobsCanOverlap(a: string, b: string) returns (r: bool)
    ensures r == CanOverlap(a, b)
  {
    if a == b {
      return true;
    }
    if a == "**" || b == "**" {
      return true;
    }
    var aParts, bParts := Split(a, '.'), Split(b, '.');
    if "**" in aParts || "**" in bParts {
      return true;
    }
    var maxLen := Longer(aParts, bParts);
    var i := 0;
    while i < maxLen
      invariant 0 <= i <= maxLen
      invariant forall k :: 0 <= k < i ==> !Clash(PartAt(aParts, k), PartAt(bParts, k))
    {
      var aPart := if i < |aParts| then aParts[i] else "";
      var bPart := if i < |bParts| then bParts[i] else "";
      if aPart == "*" || bPart == "*" {
        i := i + 1;
        continue;
      }
      if aPart == "" || bPart == "" {
        i := i + 1;
        continue;
      }
      if aPart != bPart {
        assert Clash(PartAt(aParts, i), PartAt(bParts, i));
        return false;
      }
      i := i + 1;
    }
    return true;
  }

  // ---------------------------------------------------------------------- parts of a pattern

  predicate Literal(part: string) {
    '*' !in part && '?' !in part
  }

  /** Every part is a literal, `*` or `**`. */
  predicate SegmentPattern(p: string) {
    forall i :: 0 <= i < |Split(p, '.')| ==> var part := Split(p, '.')[i]; part == "*" || part == "**" || Literal(part)
  }

  predicate NoDoubleStar(p: string) {
    forall i :: 0 <= i < |p| - 1 ==> !(p[i] == '*' && p[i + 1] == '*')
  }

  /** The head of a split grows by one character, or a new head starts. */
  lemma SplitCons(c: char, s: string)
    ensures c == '.' ==> Split([c] + s, '.') == [""] + Split(s, '.')
    ensures c != '.' ==> Split([c] + s, '.') == WithHead([c] + Split(s, '.')[0], Split(s, '.'))
  {
    assert ([c] + s)[1..] == s;
  }

  /** A list of parts with its head replaced. */
  function WithHead(head: string, parts: seq<string>): (r: seq<string>)
    requires parts != []
    ensures |r| == |parts| && r[0] == head && forall i :: 1 <= i < |r| ==> r[i] == parts[i]
  {
    [head] + parts[1..]
  }

  lemma {:induction false} SplitPrefix(u: string, s: string)
    requires '.' !in u
    ensures Split(u + s, '.') == WithHead(u + Split(s, '.')[0], Split(s, '.'))
  {
    if u == "" {
      assert u + s == s;
      assert u + Split(s, '.')[0] == Split(s, '.')[0];
    } else {
      SplitPrefix(u[1..], s);
      assert u + s == [u[0]] + (u[1..] + s);
      SplitCons(u[0], u[1..] + s);
      assert u == [u[0]] + u[1..];
      Associate([u[0]], u[1..], Split(s, '.')[0]);
    }
  }

  lemma Associate(a: string, b: string, c: string)
    ensures a + b + c == a + (b + c)
  {
  }

  /** Part by part match of a pattern and an action. */
  predicate PartsMatch(ps: seq<string>, ss: seq<string>) {
    |ps| == |ss| && forall i :: 0 <= i < |ps| ==> MatchesGlob(ps[i], ss[i])
  }

  lemma TokensCons(c: char, p: string)
    requires c != '*' || p == "" || p[0] != '*'
    ensures Tokens([c] + p) == [if c == '*' then SegmentRun else Char(c)] + Tokens(p)
  {
    assert ([c] + p)[1..] == p;
  }

  lemma SameTail(ps: seq<string>, ss: seq<string>, p: string, s: string)
    requires ps != [] && ss != [] && PartsMatch(ps, ss) && MatchesGlob(p, s)
    ensures PartsMatch(WithHead(p, ps), WithHead(s, ss))
  {
  }

  lemma NewHead(ps: seq<string>, ss: seq<string>)
    requires PartsMatch(ps, ss)
    ensures PartsMatch([""] + ps, [""] + ss)
  {
    assert MatchesGlob("", "");
  }

  /** One step of a match: what the first character of the pattern takes, and what is left. */
  lemma MatchStep(c: char, q: string, s: string) returns (u: string, t: string)
    requires NoDoubleStar([c] + q) && MatchesGlob([c] + q, s)
    ensures s == u + t && MatchesGlob(q, t) && NoDoubleStar(q)
    ensures if c == '*' then OneSegment(u) && (q == "" || q[0] != '*') else u == [c]
  {
    assert q != "" ==> ([c] + q)[1] == q[0];
    assert forall i :: 0 <= i < |q| ==> q[i] == ([c] + q)[i + 1];
    TokensCons(c, q);
    assert Tokens([c] + q)[1..] == Tokens(q);
    if c == '*' {
      var k :| 0 <= k <= |s| && OneSegment(s[..k]) && Matches(Tokens(q), s[k..]);
      u, t := s[..k], s[k..];
    } else {
      u, t := s[..1], s[1..];
    }
  }

  /** A pattern without `**` matches an action only part by part. */
  lemma {:induction false} MatchByParts(p: string, s: string)
    requires NoDoubleStar(p) && MatchesGlob(p, s)
    ensures PartsMatch(Split(p, '.'), Split(s, '.'))
    decreases |p|
  {
    if p == "" {
      assert MatchesGlob("", "");
    } else {
      var c, q := p[0], p[1..];
      assert p == [c] + q;
      var u, t := MatchStep(c, q, s);
      MatchByParts(q, t);
      SplitCons(c, q);
      var h, g := Split(q, '.')[0], Split(t, '.')[0];
      if c == '.' {
        SplitCons('.', t);
        NewHead(Split(q, '.'), Split(t, '.'));
      } else {
        SplitPrefix(u, t);
        if c == '*' { HeadRun(h, u, g, q); } else { HeadChar(c, h, g); }
        SameTail(Split(q, '.'), Split(t, '.'), [c] + h, u + g);
      }
    }
  }

  lemma HeadChar(c: char, h: string, t: string)
    requires c != '*' && MatchesGlob(h, t)
    ensures MatchesGlob([c] + h, [c] + t)
  {
    TokensCons(c, h);
    assert ([c] + t)[1..] == t;
    assert Tokens([c] + h)[1..] == Tokens(h);
  }

  lemma HeadRun(h: string, u: string, t: string, q: string)
    requires OneSegment(u) && MatchesGlob(h, t) && h == Split(q, '.')[0] && (q == "" || q[0] != '*')
    ensures MatchesGlob("*" + h, u + t)
  {
    SplitHeadStart(q);
    TokensCons('*', h);
    assert Tokens("*" + h)[1..] == Tokens(h);
    assert (u + t)[..|u|] == u && (u + t)[|u|..] == t;
  }

  lemma SplitHeadStart(q: string)
    ensures var h := Split(q, '.')[0]; h != "" ==> q != "" && h[0] == q[0]
  {
  }

  lemma {:induction false} LiteralMatches(part: string, s: string)
    requires '*' !in part
    ensures MatchesGlob(part, s) <==> s == part
    decreases |part|
  {
    if part != "" {
      assert part == [part[0]] + part[1..];
      TokensCons(part[0], part[1..]);
      assert Tokens(part)[1..] == Tokens(part[1..]);
      if s != "" {
        LiteralMatches(part[1..], s[1..]);
        assert s == [s[0]] + s[1..];
      }
    }
  }

  /** A segment pattern with no `**` part has no `**` at all. */
  lemma {:induction false} PartsWithoutDoubleStar(p: string)
    requires forall i :: 0 <= i < |Split(p, '.')| ==> NoDoubleStar(Split(p, '.')[i])
    ensures NoDoubleStar(p)
    decreases |p|
  {
    if p != "" {
      var parts, rest := Split(p, '.'), Split(p[1..], '.');
      assert p == [p[0]] + p[1..];
      SplitCons(p[0], p[1..]);
      forall i | 0 <= i < |rest| ensures NoDoubleStar(rest[i]) {
        if p[0] == '.' {
          assert rest[i] == parts[i + 1];
        } else if i == 0 {
          assert rest[0] == parts[0][1..];
          assert NoDoubleStar(parts[0]);
        } else {
          assert rest[i] == parts[i];
        }
      }
      PartsWithoutDoubleStar(p[1..]);
      if |p| > 1 && p[0] == '*' && p[1] == '*' {
        assert p[1..] == [p[1]] + p[2..];
        SplitCons(p[1], p[2..]);
        assert parts[0][0] == '*' && parts[0][1] == '*';
        assert NoDoubleStar(parts[0]);
      }
    }
  }

  lemma SegmentParts(p: string)
    requires SegmentPattern(p) && "**" !in Split(p, '.')
    ensures NoDoubleStar(p)
    ensures forall i :: 0 <= i < |Split(p, '.')| ==> Split(p, '.')[i] == "*" || Literal(Split(p, '.')[i])
  {
    forall i | 0 <= i < |Split(p, '.')| ensures NoDoubleStar(Split(p, '.')[i]) {
      assert Split(p, '.')[i] in Split(p, '.');
    }
    PartsWithoutDoubleStar(p);
  }

  /** Nothing is missed: when one action matches both patterns, the analysis reports an overlap. */
  lemma OverlapComplete(a: string, b: string, s: string)
    requires SegmentPattern(a) && SegmentPattern(b)
    requires MatchesGlob(a, s) && MatchesGlob(b, s)
    ensures CanOverlap(a, b)
  {
    var aParts, bParts, ss := Split(a, '.'), Split(b, '.'), Split(s, '.');
    if "**" !in aParts && "**" !in bParts {
      SegmentParts(a);
      SegmentParts(b);
      MatchByParts(a, s);
      MatchByParts(b, s);
      forall i | 0 <= i < |aParts| ensures !Clash(PartAt(aParts, i), PartAt(bParts, i)) {
        if aParts[i] != "*" { LiteralMatches(aParts[i], ss[i]); }
        if bParts[i] != "*" { LiteralMatches(bParts[i], ss[i]); }
      }
    }
  }

  // ---------------------------------------------------------------------- parts that meet

  predicate IsRun(t: Token) {
    t == SegmentRun || t == AnyRun
  }

  /** What a run may hold. */
  predicate Takes(t: Token, c: char) {
    match t
    case Char(_) => false
    case SegmentRun => c != '.' && c != '\n'
    case AnyRun => !LineTerminator(c)
  }

  /** Can both runs go on, or can the run take that character? */
  predicate Passes(run: Token, t: Token) {
    t.Char? ==> Takes(run, t.c)
  }

  /** Is there a text both token lists match? */
  predicate Meet(ts: seq<Token>, us: seq<Token>)
    decreases |ts| + |us|
  {
    if ts == [] then forall i :: 0 <= i < |us| ==> IsRun(us[i])
    else if us == [] then forall i :: 0 <= i < |ts| ==> IsRun(ts[i])
    else if IsRun(ts[0]) then Meet(ts[1..], us) || (Passes(ts[0], us[0]) && Meet(ts, us[1..]))
    else if IsRun(us[0]) then Meet(ts, us[1..]) || (Passes(us[0], ts[0]) && Meet(ts[1..], us))
    else ts[0] == us[0] && Meet(ts[1..], us[1..])
  }

  predicate PartMeets(a: string, b: string) {
    Meet(Tokens(a), Tokens(b))
  }

  predicate PartsMeet(as_: seq<string>, bs: seq<string>) {
    |as_| == |bs| && forall i :: 0 <= i < |as_| ==> PartMeets(as_[i], bs[i])
  }

  predicate RunText(t: Token, s: string) {
    forall i :: 0 <= i < |s| ==> Takes(t, s[i])
  }

  /** A run takes nothing, or one character and then goes on. */
  lemma RunStep(ts: seq<Token>, s: string)
    requires ts != [] && IsRun(ts[0])
    ensures Matches(ts, s) <==> Matches(ts[1..], s) || (s != "" && Takes(ts[0], s[0]) && Matches(ts, s[1..]))
  {
    assert s[..0] == "" && s[0..] == s;
    assert forall u :: RunText(ts[0], u) <==> if ts[0] == AnyRun then SingleLine(u) else OneSegment(u);
    if Matches(ts, s) {
      var k :| 0 <= k <= |s| && RunText(ts[0], s[..k]) && Matches(ts[1..], s[k..]);
      if k > 0 {
        Shifted(ts[0], s, k);
      }
    }
    if s != "" && Takes(ts[0], s[0]) && Matches(ts, s[1..]) {
      var k :| 0 <= k <= |s[1..]| && RunText(ts[0], s[1..][..k]) && Matches(ts[1..], s[1..][k..]);
      Shifted(ts[0], s, k + 1);
      assert Matches(ts[1..], s[k + 1..]) && RunText(ts[0], s[..k + 1]);
    }
  }

  lemma Shifted(t: Token, s: string, k: nat)
    requires 0 < k <= |s|
    ensures s[1..][k - 1..] == s[k..] && s[..k] == [s[0]] + s[1..][..k - 1]
    ensures RunText(t, s[..k]) <==> Takes(t, s[0]) && RunText(t, s[1..][..k - 1])
  {
    var u, v := s[..k], s[1..][..k - 1];
    assert u == [s[0]] + v;
    assert u[0] == s[0];
    assert forall i :: 0 <= i < |v| ==> v[i] == u[i + 1];
    assert forall i :: 1 <= i < |u| ==> u[i] == v[i - 1];
  }

  lemma {:induction false} EmptyText(ts: seq<Token>)
    ensures Matches(ts, "") <==> forall i :: 0 <= i < |ts| ==> IsRun(ts[i])
  {
    if ts != [] {
      EmptyText(ts[1..]);
      if IsRun(ts[0]) {
        RunStep(ts, "");
      }
    }
  }

  /** A text that both match shows that they meet. */
  lemma {:induction false} CommonTextMeets(ts: seq<Token>, us: seq<Token>, s: string)
    requires Matches(ts, s) && Matches(us, s)
    ensures Meet(ts, us)
    decreases |ts| + |us| + |s|
  {
    if ts == [] {
      EmptyText(us);
    } else if us == [] {
      EmptyText(ts);
    } else if IsRun(ts[0]) {
      RunStep(ts, s);
      if Matches(ts[1..], s) {
        CommonTextMeets(ts[1..], us, s);
      } else if IsRun(us[0]) {
        RunStep(us, s);
        if Matches(us[1..], s) {
          CommonTextMeets(ts, us[1..], s);
        } else {
          CommonTextMeets(ts, us, s[1..]);
        }
      } else {
        CommonTextMeets(ts, us[1..], s[1..]);
      }
    } else if IsRun(us[0]) {
      RunStep(us, s);
      if Matches(us[1..], s) {
        CommonTextMeets(ts, us[1..], s);
      } else {
        CommonTextMeets(ts[1..], us, s[1..]);
      }
    } else {
      CommonTextMeets(ts[1..], us[1..], s[1..]);
    }
  }

  lemma Prepend(ts: seq<Token>, c: char, s: string)
    requires ts != [] && (ts[0] == Char(c) || (IsRun(ts[0]) && Takes(ts[0], c)))
    requires Matches(if ts[0].Char? then ts[1..] else ts, s)
    ensures Matches(ts, [c] + s)
  {
    assert ([c] + s)[1..] == s;
    if IsRun(ts[0]) {
      RunStep(ts, [c] + s);
    }
  }

  lemma SkipRun(ts: seq<Token>, s: string)
    requires ts != [] && IsRun(ts[0]) && Matches(ts[1..], s)
    ensures Matches(ts, s)
  {
    RunStep(ts, s);
  }

  /** Token lists that meet have a common text. */
  lemma {:induction false} MeetHasText(ts: seq<Token>, us: seq<Token>) returns (s: string)
    requires Meet(ts, us)
    ensures Matches(ts, s) && Matches(us, s)
    decreases |ts| + |us|
  {
    if ts == [] || us == [] {
      s := "";
      EmptyText(ts);
      EmptyText(us);
    } else if IsRun(ts[0]) {
      if Meet(ts[1..], us) {
        s := MeetHasText(ts[1..], us);
        SkipRun(ts, s);
      } else {
        var t := MeetHasText(ts, us[1..]);
        if IsRun(us[0]) {
          s := t;
          SkipRun(us, s);
        } else {
          s := [us[0].c] + t;
          Prepend(ts, us[0].c, t);
          Prepend(us, us[0].c, t);
        }
      }
    } else if IsRun(us[0]) {
      if Meet(ts, us[1..]) {
        s := MeetHasText(ts, us[1..]);
        SkipRun(us, s);
      } else {
        var t := MeetHasText(ts[1..], us);
        s := [ts[0].c] + t;
        Prepend(ts, ts[0].c, t);
        Prepend(us, ts[0].c, t);
      }
    } else {
      var t := MeetHasText(ts[1..], us[1..]);
      s := [ts[0].c] + t;
      Prepend(ts, ts[0].c, t);
      Prepend(us, ts[0].c, t);
    }
  }

  // ---------------------------------------------------------------------- parts and wholes

  predicate NoDots(parts: seq<string>) {
    forall i :: 0 <= i < |parts| ==> '.' !in parts[i]
  }

  lemma {:induction false} SplitHasNoDots(s: string)
    ensures NoDots(Split(s, '.'))
  {
    if s != "" {
      SplitHasNoDots(s[1..]);
      assert s == [s[0]] + s[1..];
      SplitCons(s[0], s[1..]);
    }
  }

  lemma {:induction false} JoinSplit(s: string)
    ensures Join(Split(s, '.'), ".") == s
  {
    if s != "" {
      JoinSplit(s[1..]);
      var parts := Split(s[1..], '.');
      assert s == [s[0]] + s[1..];
      SplitCons(s[0], s[1..]);
      if s[0] == '.' {
        assert ([""] + parts)[1..] == parts;
      } else {
        JoinHead([s[0]], parts[0], parts[1..], ".");
        assert [parts[0]] + parts[1..] == parts;
      }
    }
  }

  lemma {:induction false} PartsNoDoubleStar(p: string)
    requires NoDoubleStar(p)
    ensures forall i :: 0 <= i < |Split(p, '.')| ==> NoDoubleStar(Split(p, '.')[i])
  {
    if p != "" {
      var parts, rest := Split(p, '.'), Split(p[1..], '.');
      assert p == [p[0]] + p[1..];
      assert forall i :: 0 <= i < |p[1..]| ==> p[1..][i] == p[i + 1];
      PartsNoDoubleStar(p[1..]);
      SplitCons(p[0], p[1..]);
      SplitHeadStart(p[1..]);
      forall i | 0 <= i < |parts| ensures NoDoubleStar(parts[i]) {
        if p[0] == '.' {
          assert i > 0 ==> parts[i] == rest[i - 1];
        } else if i == 0 {
          assert parts[0] == [p[0]] + rest[0] && NoDoubleStar(rest[0]);
          assert forall j :: 1 <= j < |parts[0]| ==> parts[0][j] == rest[0][j - 1];
        } else {
          assert parts[i] == rest[i];
        }
      }
    }
  }

  predicate Dotless(ts: seq<Token>) {
    AnyRun !in ts && Char('.') !in ts
  }

  /** The tokens of a part have no `**` and no dot. */
  lemma {:induction false} PartTokens(part: string)
    requires NoDoubleStar(part) && '.' !in part
    ensures Dotless(Tokens(part))
  {
    if part != "" {
      assert part == [part[0]] + part[1..];
      assert forall i :: 0 <= i < |part[1..]| ==> part[1..][i] == part[i + 1];
      PartTokens(part[1..]);
      TokensCons(part[0], part[1..]);
    }
  }

  /** A dot ends every star before it. */
  lemma {:induction false} TokensDot(p: string, q: string)
    ensures Tokens(p + (['.'] + q)) == Tokens(p) + ([Char('.')] + Tokens(q))
    decreases |p|
  {
    var whole := p + (['.'] + q);
    if p == "" {
      assert whole == ['.'] + q;
      TokensCons('.', q);
    } else {
      assert whole[0] == p[0];
      assert |p| > 1 ==> whole[1] == p[1];
      assert StartsWith(whole, "**") <==> StartsWith(p, "**") by {
        assert |p| == 1 ==> whole[1] == '.';
      }
      var n := if StartsWith(p, "**") then 2 else 1;
      assert whole[n..] == p[n..] + (['.'] + q);
      TokensDot(p[n..], q);
    }
  }

  lemma CharStep(ts: seq<Token>, s: string)
    requires ts != [] && ts[0].Char?
    ensures Matches(ts, s) <==> s != "" && s[0] == ts[0].c && Matches(ts[1..], s[1..])
  {
  }

  lemma NothingLeft(s: string)
    ensures Matches([], s) <==> s == ""
  {
  }

  /** Texts matched one after the other make a text matched by the joined tokens. */
  lemma {:induction false} MatchConcat(ts: seq<Token>, us: seq<Token>, s: string, t: string)
    requires Matches(ts, s) && Matches(us, t)
    ensures Matches(ts + us, s + t)
    decreases |ts| + |s|
  {
    hide Matches;
    if ts == [] {
      NothingLeft(s);
      assert ts + us == us && s + t == t;
    } else {
      assert (ts + us)[1..] == ts[1..] + us;
      if ts[0].Char? {
        CharStep(ts, s);
        MatchConcat(ts[1..], us, s[1..], t);
        Prepend(ts + us, s[0], s[1..] + t);
        assert s + t == [s[0]] + (s[1..] + t);
      } else {
        RunStep(ts, s);
        if Matches(ts[1..], s) {
          MatchConcat(ts[1..], us, s, t);
          SkipRun(ts + us, s + t);
        } else {
          MatchConcat(ts, us, s[1..], t);
          Prepend(ts + us, s[0], s[1..] + t);
          assert s + t == [s[0]] + (s[1..] + t);
        }
      }
    }
  }

  /** Parts that match one by one make a whole that matches. */
  lemma {:induction false} PartsMatchWhole(ps: seq<string>, ss: seq<string>)
    requires ps != [] && PartsMatch(ps, ss)
    ensures MatchesGlob(Join(ps, "."), Join(ss, "."))
  {
    if |ps| > 1 {
      var q, t := Join(ps[1..], "."), Join(ss[1..], ".");
      assert PartsMatch(ps[1..], ss[1..]);
      PartsMatchWhole(ps[1..], ss[1..]);
      HeadChar('.', q, t);
      TokensCons('.', q);
      TokensDot(ps[0], q);
      MatchConcat(Tokens(ps[0]), [Char('.')] + Tokens(q), ss[0], ['.'] + t);
      assert Join(ps, ".") == ps[0] + (['.'] + q);
      assert Join(ss, ".") == ss[0] + (['.'] + t);
    }
  }

  // ---------------------------------------------------------------------- when the analysis is right

  /** Some action matches both patterns. */
  ghost predicate CommonAction(a: string, b: string) {
    exists s :: MatchesGlob(a, s) && MatchesGlob(b, s)
  }

  lemma {:induction false} CommonParts(as_: seq<string>, bs: seq<string>) returns (ss: seq<string>)
    requires PartsMeet(as_, bs)
    ensures PartsMatch(as_, ss) && PartsMatch(bs, ss)
  {
    if as_ == [] {
      ss := [];
    } else {
      assert PartMeets(as_[0], bs[0]);
      var s := MeetHasText(Tokens(as_[0]), Tokens(bs[0]));
      var rest := CommonParts(as_[1..], bs[1..]);
      ss := [s] + rest;
    }
  }

  /** Two patterns have an action in common exactly when their tokens meet. */
  lemma CommonOnTokens(a: string, b: string)
    ensures CommonAction(a, b) <==> Meet(Tokens(a), Tokens(b))
  {
    if s :| MatchesGlob(a, s) && MatchesGlob(b, s) {
      CommonTextMeets(Tokens(a), Tokens(b), s);
    }
    if Meet(Tokens(a), Tokens(b)) {
      var s := MeetHasText(Tokens(a), Tokens(b));
      assert MatchesGlob(a, s) && MatchesGlob(b, s);
    }
  }

  /** Patterns without `**` have an action in common exactly when their parts meet one by one. */
  lemma CommonExactly(a: string, b: string)
    requires NoDoubleStar(a) && NoDoubleStar(b)
    ensures CommonAction(a, b) <==> PartsMeet(Split(a, '.'), Split(b, '.'))
  {
    var aParts, bParts := Split(a, '.'), Split(b, '.');
    if s :| MatchesGlob(a, s) && MatchesGlob(b, s) {
      MatchByParts(a, s);
      MatchByParts(b, s);
      var ss := Split(s, '.');
      forall i | 0 <= i < |aParts| ensures PartMeets(aParts[i], bParts[i]) {
        CommonTextMeets(Tokens(aParts[i]), Tokens(bParts[i]), ss[i]);
      }
    }
    if PartsMeet(aParts, bParts) {
      var ss := CommonParts(aParts, bParts);
      PartsMatchWhole(aParts, ss);
      PartsMatchWhole(bParts, ss);
      JoinSplit(a);
      JoinSplit(b);
      assert MatchesGlob(a, Join(ss, ".")) && MatchesGlob(b, Join(ss, "."));
    }
  }

  predicate SomeClash(as_: seq<string>, bs: seq<string>) {
    exists i :: 0 <= i < Longer(as_, bs) && Clash(PartAt(as_, i), PartAt(bs, i))
  }

  /** An overlap is reported unless no part is `**` and two parts clash. */
  lemma ReportedUnlessClash(a: string, b: string)
    ensures CanOverlap(a, b) <==>
      "**" in Split(a, '.') || "**" in Split(b, '.') || !SomeClash(Split(a, '.'), Split(b, '.'))
  {
    assert a == "**" ==> Split(a, '.') == ["**"];
    assert b == "**" ==> Split(b, '.') == ["**"];
  }

  /**
   * For every pair of patterns: the analysis misses an overlap exactly when the tokens meet, no
   * part is `**` and two parts clash, and reports one that is none exactly when the tokens do not
   * meet although a part is `**` or no parts clash.
   */
  lemma OverlapErrs(a: string, b: string)
    ensures var reported := "**" in Split(a, '.') || "**" in Split(b, '.') || !SomeClash(Split(a, '.'), Split(b, '.'));
      && (CommonAction(a, b) && !CanOverlap(a, b) <==> Meet(Tokens(a), Tokens(b)) && !reported)
      && (CanOverlap(a, b) && !CommonAction(a, b) <==> reported && !Meet(Tokens(a), Tokens(b)))
  {
    CommonOnTokens(a, b);
    ReportedUnlessClash(a, b);
  }

  lemma NoDoublePart(p: string)
    requires NoDoubleStar(p)
    ensures p != "**" && "**" !in Split(p, '.')
  {
    PartsNoDoubleStar(p);
    assert !NoDoubleStar("**") by { assert "**"[0] == '*' && "**"[0 + 1] == '*'; }
  }

  /** An overlap is missed exactly when all parts meet and yet two of them clash. */
  lemma OverlapMissed(a: string, b: string)
    requires NoDoubleStar(a) && NoDoubleStar(b)
    ensures CommonAction(a, b) && !CanOverlap(a, b) <==>
      PartsMeet(Split(a, '.'), Split(b, '.')) && SomeClash(Split(a, '.'), Split(b, '.'))
  {
    CommonExactly(a, b);
    ReportedUnlessClash(a, b);
    NoDoublePart(a);
    NoDoublePart(b);
  }

  /** An empty part against one that needs a character, or a `*` against one with a line feed. */
  predicate Unequal(a: string, b: string) {
    || (a == "" && b != "" && b != "*") || (b == "" && a != "" && a != "*")
    || (a == "*" && '\n' in b) || (b == "*" && '\n' in a)
  }

  /** Every token list matches the text of its own characters. */
  lemma {:induction false} OwnText(ts: seq<Token>) returns (s: string)
    ensures Matches(ts, s) && forall i :: 0 <= i < |s| ==> Char(s[i]) in ts
  {
    if ts == [] {
      s := "";
    } else {
      var t := OwnText(ts[1..]);
      if IsRun(ts[0]) {
        s := t;
        SkipRun(ts, t);
      } else {
        s := [ts[0].c] + t;
        Prepend(ts, ts[0].c, t);
      }
    }
  }

  lemma {:induction false} CharToken(p: string, c: char)
    requires NoDoubleStar(p) && c != '*'
    ensures Char(c) in Tokens(p) <==> c in p
  {
    if p != "" {
      assert p == [p[0]] + p[1..];
      assert forall i :: 0 <= i < |p[1..]| ==> p[1..][i] == p[i + 1];
      TokensCons(p[0], p[1..]);
      CharToken(p[1..], c);
    }
  }

  lemma StarText(s: string)
    ensures Matches([SegmentRun], s) <==> OneSegment(s)
  {
    assert [SegmentRun][1..] == [];
    if Matches([SegmentRun], s) {
      var k :| 0 <= k <= |s| && OneSegment(s[..k]) && Matches([], s[k..]);
      assert s[..k] == s;
    }
    if OneSegment(s) {
      assert s[..|s|] == s && s[|s|..] == "";
    }
  }

  /** A star meets every part without a line feed. */
  lemma StarMeets(us: seq<Token>)
    requires Dotless(us)
    ensures Meet([SegmentRun], us) <==> Char('\n') !in us
    ensures Meet(us, [SegmentRun]) <==> Char('\n') !in us
  {
    if Char('\n') !in us {
      var s := OwnText(us);
      StarText(s);
      CommonTextMeets([SegmentRun], us, s);
      CommonTextMeets(us, [SegmentRun], s);
    } else {
      if Meet([SegmentRun], us) {
        StarTakesNoLineFeed([SegmentRun], us);
      }
      if Meet(us, [SegmentRun]) {
        StarTakesNoLineFeed(us, [SegmentRun]);
      }
    }
  }

  lemma StarTakesNoLineFeed(ts: seq<Token>, us: seq<Token>)
    requires Dotless(ts) && Dotless(us) && (ts == [SegmentRun] || us == [SegmentRun])
    requires Char('\n') in ts + us
    ensures !Meet(ts, us)
  {
    if Meet(ts, us) {
      var s := MeetHasText(ts, us);
      StarText(s);
      MatchContainsChars(if Char('\n') in ts then ts else us, s, '\n');
    }
  }

  /** Only the empty part and `*` match the empty text. */
  lemma OnlyStars(p: string)
    requires NoDoubleStar(p)
    ensures (forall i :: 0 <= i < |Tokens(p)| ==> Tokens(p)[i] == SegmentRun) <==> p == "" || p == "*"
  {
    assert Tokens("*") == [SegmentRun] by { TokensCons('*', ""); }
    if p != "" {
      var q := p[1..];
      assert p == [p[0]] + q;
      TokensCons(p[0], q);
      if q == "" {
        assert p == [p[0]] && Tokens(p) == [Tokens(p)[0]];
      } else {
        assert |p| > 1 && p != "*";
        assert q == [q[0]] + q[1..] && q[0] == p[0 + 1] && !(p[0] == '*' && p[0 + 1] == '*');
        assert forall i :: 0 <= i < |q| ==> q[i] == p[i + 1];
        TokensCons(q[0], q[1..]);
        assert Tokens(p)[1] == Tokens(q)[0];
        assert Tokens(p)[if p[0] == '*' then 1 else 0] != SegmentRun;
      }
    }
  }

  /** Parts that do not clash meet, but for those. */
  lemma NoClashMeets(a: string, b: string)
    requires NoDoubleStar(a) && NoDoubleStar(b) && '.' !in a && '.' !in b && !Clash(a, b)
    ensures PartMeets(a, b) <==> !Unequal(a, b)
  {
    assert Tokens("*") == [SegmentRun] by { TokensCons('*', ""); }
    PartTokens(a);
    PartTokens(b);
    CharToken(a, '\n');
    CharToken(b, '\n');
    OnlyStars(a);
    OnlyStars(b);
    if a == "*" {
      StarMeets(Tokens(b));
    } else if b == "*" {
      StarMeets(Tokens(a));
    } else if a == b {
      var s := OwnText(Tokens(a));
      CommonTextMeets(Tokens(a), Tokens(a), s);
    }
  }

  predicate SomeUnequal(as_: seq<string>, bs: seq<string>) {
    |as_| != |bs| || exists i :: 0 <= i < |as_| && Unequal(as_[i], bs[i])
  }

  /**
   * An overlap is reported although no action matches both patterns exactly when no two parts
   * clash, and the patterns differ in their number of parts or have such a pair of parts.
   */
  lemma OverlapFalselyReported(a: string, b: string)
    requires NoDoubleStar(a) && NoDoubleStar(b)
    ensures CanOverlap(a, b) && !CommonAction(a, b) <==>
      !SomeClash(Split(a, '.'), Split(b, '.')) && SomeUnequal(Split(a, '.'), Split(b, '.'))
  {
    var aParts, bParts := Split(a, '.'), Split(b, '.');
    CommonExactly(a, b);
    ReportedUnlessClash(a, b);
    NoDoublePart(a);
    NoDoublePart(b);
    PartsNoDoubleStar(a);
    PartsNoDoubleStar(b);
    SplitHasNoDots(a);
    SplitHasNoDots(b);
    if !SomeClash(aParts, bParts) && |aParts| == |bParts| {
      forall i | 0 <= i < |aParts| ensures PartMeets(aParts[i], bParts[i]) <==> !Unequal(aParts[i], bParts[i]) {
        assert !Clash(PartAt(aParts, i), PartAt(bParts, i));
        NoClashMeets(aParts[i], bParts[i]);
      }
    }
  }

  /** Patterns of plain parts: each a `*` or a non-empty literal on one line. */
  predicate PlainPattern(p: string) {
    forall i :: 0 <= i < |Split(p, '.')| ==> var part := Split(p, '.')[i];
      part == "*" || (Literal(part) && part != "" && '\n' !in part)
  }

  /** On plain patterns with equally many parts the analysis is right. */
  lemma OverlapExact(a: string, b: string)
    requires PlainPattern(a) && PlainPattern(b) && |Split(a, '.')| == |Split(b, '.')|
    ensures CanOverlap(a, b) <==> CommonAction(a, b)
  {
    if s :| MatchesGlob(a, s) && MatchesGlob(b, s) {
      OverlapComplete(a, b, s);
    }
    PlainNotDouble(a);
    PlainNotDouble(b);
    OverlapFalselyReported(a, b);
  }

  lemma PlainNotDouble(p: string)
    requires PlainPattern(p)
    ensures NoDoubleStar(p)
  {
    var parts := Split(p, '.');
    forall i | 0 <= i < |parts| ensures NoDoubleStar(parts[i]) {
      assert parts[i] == "*" || Literal(parts[i]);
    }
    PartsWithoutDoubleStar(p);
  }

  /** Some action is matched by both compiled expressions. */
  ghost predicate BothCompiledMatch(a: string, b: string) {
    exists s :: GlobMatches(a, s) == Some(true) && GlobMatches(b, s) == Some(true)
  }

  /** Without question marks, the compiled expressions have just the same actions in common. */
  lemma CompiledCommonAction(a: string, b: string)
    requires '?' !in a && '?' !in b
    ensures BothCompiledMatch(a, b) <==> CommonAction(a, b)
  {
    TranslationFaithful(a);
    TranslationFaithful(b);
    if s :| GlobMatches(a, s) == Some(true) && GlobMatches(b, s) == Some(true) {
      assert MatchesGlob(a, s) && MatchesGlob(b, s);
    }
    if s :| MatchesGlob(a, s) && MatchesGlob(b, s) {
      assert GlobMatches(a, s) == Some(true) && GlobMatches(b, s) == Some(true);
    }
  }
}
