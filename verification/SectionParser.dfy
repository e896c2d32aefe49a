/**
 * Splitting a Markdown document at its headings. A stack of open headings gives every
 * section the path of its ancestors.
 */
module SectionParser {
  import opened Wrappers
  import opened Strings

  datatype Heading = Heading(title: string, level: nat)

  // ---------------------------------------------------------------------- heading lines

  /** What the dot of a regular expression matches, one or more times, up to the end. */
  predicate DotText(s: string) {
    s != "" && forall i :: 0 <= i < |s| ==> !LineTerminator(s[i])
  }

  function Hashes(s: string): (n: nat)
    ensures n <= |s| && (forall i :: 0 <= i < n ==> s[i] == '#') && (n < |s| ==> s[n] != '#')
  {
    if s != "" && s[0] == '#' then 1 + Hashes(s[1..]) else 0
  }

  function Spaces(s: string): (n: nat)
    ensures n <= |s| && Blank(s[..n]) && (n < |s| ==> !IsSpace(s[n]))
  {
    if s != "" && IsSpace(s[0]) then
      var n := 1 + Spaces(s[1..]);
      assert s[1..][..n - 1] == s[1..n];
      n
    else 0
  }

  /** \s+(.+)$ after the hashes, the group trimmed; a greedy \s+ gives back what the group needs. */
  function MatchTitle(rest: string): Option<string> {
    var w := Spaces(rest);
    if w == 0 then None
    else if w < |rest| then (if DotText(rest[w..]) then Some(Trim(rest[w..])) else None)
    else if w > 1 && DotText(rest[w - 1..]) then Some("")
    else None
  }

  /** line.match(/^(#{1,6})\s+(.+)$/), the second group trimmed. */
  function MatchHeading(line: string): Option<Heading> {
    var level := Hashes(line);
    if level == 0 || level > 6 then None
    else
      match MatchTitle(line[level..])
      case None => None
      case Some(title) => Some(Heading(title, level))
  }

  /** One way for the white space and the text to match. */
  predicate TitleAfter(rest: string, w: nat) {
    && 1 <= w < |rest| && Blank(rest[..w])
    && forall i :: w <= i < |rest| ==> rest[i] != '\n' && rest[i] != '\r' && rest[i] != '\U{2028}' && rest[i] != '\U{2029}'
  }

  lemma DotTextAfter(rest: string, w: nat)
    requires w <= |rest|
    ensures DotText(rest[w..]) && 1 <= w && Blank(rest[..w]) <==> TitleAfter(rest, w)
  {
    if DotText(rest[w..]) {
      forall i | w <= i < |rest| ensures !LineTerminator(rest[i]) {
        assert rest[i] == rest[w..][i - w];
      }
    }
  }

  /** One way for the whole expression to match. */
  predicate Decomposes(line: string, level: nat, w: nat) {
    1 <= level <= 6 && level <= |line| && AllHashes(line[..level]) && TitleAfter(line[level..], w)
  }

  predicate AllHashes(s: string) {
    forall i :: 0 <= i < |s| ==> s[i] == '#'
  }

  lemma {:induction false} TrimSkipsBlanks(s: string, w: nat)
    requires w <= |s| && Blank(s[..w])
    ensures Trim(s) == Trim(s[w..])
  {
    if w > 0 {
      assert IsSpace(s[..w][0]);
      assert s[1..][..w - 1] == s[..w][1..];
      TrimSkipsBlanks(s[1..], w - 1);
      assert s[1..][w - 1..] == s[w..];
    } else {
      assert s[0..] == s;
    }
  }

  lemma DotSuffix(s: string, k: nat)
    requires DotText(s) && k < |s|
    ensures DotText(s[k..])
  {
  }

  lemma {:induction false} SpacesReach(rest: string, w: nat)
    requires w <= |rest| && Blank(rest[..w])
    ensures w <= Spaces(rest)
  {
    if w > 0 {
      assert IsSpace(rest[..w][0]);
      assert rest[1..][..w - 1] == rest[..w][1..];
      SpacesReach(rest[1..], w - 1);
    }
  }

  /** However much white space the group takes, its trimmed text is the same. */
  lemma AnyTitle(rest: string, w: nat)
    requires TitleAfter(rest, w)
    ensures MatchTitle(rest) == Some(Trim(rest[w..]))
  {
    var v := Spaces(rest);
    DotTextAfter(rest, w);
    SpacesReach(rest, w);
    var text := rest[w..];
    assert text[..v - w] == rest[..v][w..];
    if v < |rest| {
      TrimSkipsBlanks(text, v - w);
      assert text[v - w..] == rest[v..];
      DotSuffix(text, v - w);
    } else {
      assert Blank(text);
      DotSuffix(text, v - 1 - w);
      assert text[v - 1 - w..] == rest[v - 1..];
    }
  }

  lemma SomeTitle(rest: string)
    requires MatchTitle(rest).Some?
    ensures exists w: nat :: TitleAfter(rest, w)
  {
    var v := Spaces(rest);
    var w := if v < |rest| then v else v - 1;
    assert rest[..w] == rest[..v][..w];
    DotTextAfter(rest, w);
    assert TitleAfter(rest, w);
  }

  lemma HashesExactly(line: string, level: nat)
    requires level <= |line| && AllHashes(line[..level]) && (level < |line| ==> line[level] != '#')
    ensures Hashes(line) == level
  {
    if Hashes(line) < level {
      assert false;
    }
  }

  /** A line is a heading exactly when the expression matches it in some way, and any way gives the same heading. */
  lemma HeadingExactly(line: string)
    ensures MatchHeading(line).Some? <==> exists level: nat, w: nat :: Decomposes(line, level, w)
    ensures forall level: nat, w: nat :: Decomposes(line, level, w) ==> MatchHeading(line) == Some(Heading(Trim(line[level..][w..]), level))
  {
    if MatchHeading(line).Some? {
      SomeTitle(line[Hashes(line)..]);
      var w: nat :| TitleAfter(line[Hashes(line)..], w);
      assert Decomposes(line, Hashes(line), w);
    }
    forall level: nat, w: nat | Decomposes(line, level, w)
      ensures MatchHeading(line) == Some(Heading(Trim(line[level..][w..]), level))
    {
      assert IsSpace(line[level..][..w][0]);
      HashesExactly(line, level);
      AnyTitle(line[level..], w);
    }
  }

  // ---------------------------------------------------------------------- open headings

  type Outline = seq<Option<Heading>>

  /** How a line is read as a heading. */
  type HeadingOf = string -> Option<Heading>

  function OutlineOf(lines: seq<string>, heading: HeadingOf): (hs: Outline)
    ensures |hs| == |lines|
    ensures forall i :: 0 <= i < |lines| ==> hs[i] == heading(lines[i])
  {
    seq(|lines|, i requires 0 <= i < |lines| => heading(lines[i]))
  }

  /** Line j is a heading, and no later one before line n has a lower or equal level. */
  predicate IsOpen(hs: Outline, n: nat, j: nat) {
    && j < n <= |hs| && hs[j].Some?
    && forall k :: j < k < n && hs[k].Some? ==> hs[k].value.level > hs[j].value.level
  }

  /** The lines below m whose heading is open, seen from line n, in order. */
  function OpenBelow(hs: Outline, n: nat, m: nat): (js: seq<nat>)
    ensures forall i :: 0 <= i < |js| ==> js[i] < m && IsOpen(hs, n, js[i])
    ensures forall i, k :: 0 <= i < k < |js| ==> js[i] < js[k]
  {
    if m == 0 then [] else OpenBelow(hs, n, m - 1) + (if IsOpen(hs, n, m - 1) then [m - 1] else [])
  }

  /** Their headings. */
  function StackBelow(hs: Outline, n: nat, m: nat): seq<Heading> {
    if m == 0 then []
    else if IsOpen(hs, n, m - 1) then StackBelow(hs, n, m - 1) + [hs[m - 1].value]
    else StackBelow(hs, n, m - 1)
  }

  function OpenLines(hs: Outline, n: nat): seq<nat> {
    OpenBelow(hs, n, n)
  }

  /** The stack of open headings before line n. */
  function HeadingsAt(hs: Outline, n: nat): seq<Heading> {
    StackBelow(hs, n, n)
  }

  lemma {:induction false} StackLines(hs: Outline, n: nat, m: nat)
    ensures |StackBelow(hs, n, m)| == |OpenBelow(hs, n, m)|
    ensures forall i :: 0 <= i < |StackBelow(hs, n, m)| ==> hs[OpenBelow(hs, n, m)[i]] == Some(StackBelow(hs, n, m)[i])
  {
    if m > 0 {
      StackLines(hs, n, m - 1);
    }
  }

  lemma {:induction false} OpenBelowExactly(hs: Outline, n: nat, m: nat)
    ensures forall j: nat :: j in OpenBelow(hs, n, m) <==> j < m && IsOpen(hs, n, j)
  {
    if m > 0 {
      OpenBelowExactly(hs, n, m - 1);
    }
  }

  /** The stack holds exactly the open headings, in line order and strictly increasing in level. */
  lemma OpenExactly(hs: Outline, n: nat)
    ensures |HeadingsAt(hs, n)| == |OpenLines(hs, n)|
    ensures forall j: nat :: j in OpenLines(hs, n) <==> IsOpen(hs, n, j)
    ensures forall i, k :: 0 <= i < k < |OpenLines(hs, n)| ==> OpenLines(hs, n)[i] < OpenLines(hs, n)[k]
    ensures forall i :: 0 <= i < |OpenLines(hs, n)| ==> hs[OpenLines(hs, n)[i]] == Some(HeadingsAt(hs, n)[i])
    ensures Rising(HeadingsAt(hs, n))
  {
    OpenBelowExactly(hs, n, n);
    StackLines(hs, n, n);
    var js, stack := OpenLines(hs, n), HeadingsAt(hs, n);
    forall i, k | 0 <= i < k < |js| ensures stack[i].level < stack[k].level {
      assert IsOpen(hs, n, js[i]) && IsOpen(hs, n, js[k]);
    }
  }

  predicate Rising(stack: seq<Heading>) {
    forall i, k :: 0 <= i < k < |stack| ==> stack[i].level < stack[k].level
  }

  /** The part of a stack below a level. */
  function Lower(stack: seq<Heading>, level: nat): seq<Heading> {
    if stack == [] then [] else Lower(stack[..|stack| - 1], level) + (if stack[|stack| - 1].level < level then [stack[|stack| - 1]] else [])
  }

  lemma LowerSnoc(stack: seq<Heading>, h: Heading, level: nat)
    ensures Lower(stack + [h], level) == if h.level < level then Lower(stack, level) + [h] else Lower(stack, level)
  {
    assert (stack + [h])[..|stack|] == stack;
  }

  lemma {:induction false} NextStackBelow(hs: Outline, n: nat, m: nat)
    requires m <= n < |hs| && hs[n].Some?
    ensures StackBelow(hs, n + 1, m) == Lower(StackBelow(hs, n, m), hs[n].value.level)
  {
    if m > 0 {
      NextStackBelow(hs, n, m - 1);
      var kept := StackBelow(hs, n, m - 1);
      assert IsOpen(hs, n + 1, m - 1) <==> IsOpen(hs, n, m - 1) && hs[m - 1].value.level < hs[n].value.level;
      if IsOpen(hs, n, m - 1) {
        LowerSnoc(kept, hs[m - 1].value, hs[n].value.level);
      }
    }
  }

  /** A heading closes every open heading of its own level or deeper, and opens itself. */
  lemma HeadingStep(hs: Outline, n: nat)
    requires n < |hs| && hs[n].Some?
    ensures HeadingsAt(hs, n + 1) == Lower(HeadingsAt(hs, n), hs[n].value.level) + [hs[n].value]
  {
    NextStackBelow(hs, n, n);
  }

  lemma {:induction false} SameStackBelow(hs: Outline, n: nat, m: nat)
    requires m <= n < |hs| && hs[n].None?
    ensures StackBelow(hs, n + 1, m) == StackBelow(hs, n, m)
  {
    if m > 0 {
      SameStackBelow(hs, n, m - 1);
      assert IsOpen(hs, n + 1, m - 1) <==> IsOpen(hs, n, m - 1);
    }
  }

  /** Any other line leaves the stack alone. */
  lemma TextStep(hs: Outline, n: nat)
    requires n < |hs| && hs[n].None?
    ensures HeadingsAt(hs, n + 1) == HeadingsAt(hs, n)
  {
    SameStackBelow(hs, n, n);
  }

  /** Headings that are not lower add nothing. */
  lemma {:induction false} LowerPrefix(stack: seq<Heading>, k: nat, m: nat, level: nat)
    requires k <= m <= |stack| && forall i :: k <= i < m ==> stack[i].level >= level
    ensures Lower(stack[..m], level) == Lower(stack[..k], level)
    decreases m
  {
    if k < m {
      LowerPrefix(stack, k, m - 1, level);
      assert stack[..m] == stack[..m - 1] + [stack[m - 1]];
      LowerSnoc(stack[..m - 1], stack[m - 1], level);
    }
  }

  /** On a rising stack, popping from the top while the level is not lower keeps exactly the lower part. */
  lemma PoppedIsLower(stack: seq<Heading>, k: nat, level: nat)
    requires Rising(stack) && k <= |stack|
    requires forall i :: k <= i < |stack| ==> stack[i].level >= level
    requires k > 0 ==> stack[k - 1].level < level
    ensures Lower(stack, level) == stack[..k]
  {
    LowerPrefix(stack, k, |stack|, level);
    assert stack[..|stack|] == stack;
    AllLower(stack[..k], level);
  }

  lemma {:induction false} AllLower(stack: seq<Heading>, level: nat)
    requires Rising(stack) && (stack != [] ==> stack[|stack| - 1].level < level)
    ensures Lower(stack, level) == stack
  {
    if stack != [] {
      AllLower(stack[..|stack| - 1], level);
      assert stack == stack[..|stack| - 1] + [stack[|stack| - 1]];
    }
  }

  // ---------------------------------------------------------------------- sections

  datatype ParsedSection = ParsedSection(
    id: string,
    title: string,
    headingPath: string,
    level: nat,
    order: nat,
    content: string,
    contentHash: string)

  function Titles(stack: seq<Heading>): (ts: seq<string>)
    ensures |ts| == |stack|
  {
    seq(|stack|, i requires 0 <= i < |stack| => stack[i].title)
  }

  /** A section before it is numbered: its heading, the open headings there, and its text. */
  datatype Draft = Draft(title: string, level: nat, stack: seq<Heading>, content: string)

  function BuildSection(d: Draft, order: nat, sha: string -> string): ParsedSection {
    ParsedSection("section-" + Decimal(order), d.title, Join(Titles(d.stack), " > "), d.level, order, d.content, sha(d.content))
  }

  function Number(drafts: seq<Draft>, sha: string -> string): (r: seq<ParsedSection>)
    ensures |r| == |drafts|
  {
    seq(|drafts|, i requires 0 <= i < |drafts| => BuildSection(drafts[i], i, sha))
  }

  /** How the lines of a section become its content. */
  type TextOf = seq<string> -> string

  function TrimmedText(textLines: seq<string>): string {
    Trim(Join(textLines, "\n"))
  }

  /** What is under way makes a section when it has a title and some text. */
  function Finish(title: string, level: nat, stack: seq<Heading>, textLines: seq<string>, text: TextOf): Option<Draft> {
    if title != "" && text(textLines) != "" then Some(Draft(title, level, stack, text(textLines))) else None
  }

  /** The first heading after line h, or the end. */
  function NextHeading(hs: Outline, h: nat): (n: nat)
    requires h < |hs|
    ensures h < n <= |hs|
    ensures forall k :: h < k < n ==> hs[k].None?
    ensures n < |hs| ==> hs[n].Some?
    decreases |hs| - h
  {
    if h + 1 == |hs| || hs[h + 1].Some? then h + 1 else NextHeading(hs, h + 1)
  }

  /** The section of heading line h: the text up to the next heading, under the headings open at h. */
  function DraftAt(lines: seq<string>, hs: Outline, h: nat, text: TextOf): Option<Draft> {
    if h < |lines| == |hs| && hs[h].Some? then
      Finish(hs[h].value.title, hs[h].value.level, HeadingsAt(hs, h + 1), lines[h + 1..NextHeading(hs, h)], text)
    else None
  }

  function AllDrafts(lines: seq<string>, hs: Outline, text: TextOf): (ds: seq<Option<Draft>>)
    ensures |ds| == |lines|
  {
    seq(|lines|, h requires 0 <= h < |lines| => DraftAt(lines, hs, h, text))
  }

  /** The positions below m that hold a value, in order. */
  function Places<T>(xs: seq<Option<T>>, m: nat): (at: seq<nat>)
    requires m <= |xs|
    ensures forall i :: 0 <= i < |at| ==> at[i] < m && xs[at[i]].Some?
    ensures forall i, k :: 0 <= i < k < |at| ==> at[i] < at[k]
  {
    if m == 0 then [] else Places(xs, m - 1) + (if xs[m - 1].Some? then [m - 1] else [])
  }

  /** Those values. */
  function Somes<T>(xs: seq<Option<T>>, m: nat): (ys: seq<T>)
    requires m <= |xs|
    ensures |ys| == |Places(xs, m)|
  {
    if m == 0 then [] else Somes(xs, m - 1) + (if xs[m - 1].Some? then [xs[m - 1].value] else [])
  }

  lemma {:induction false} SomesAtPlaces<T>(xs: seq<Option<T>>, m: nat)
    requires m <= |xs|
    ensures forall i :: 0 <= i < |Somes(xs, m)| ==> xs[Places(xs, m)[i]] == Some(Somes(xs, m)[i])
  {
    if m > 0 {
      SomesAtPlaces(xs, m - 1);
    }
  }

  lemma {:induction false} PlacesExactly<T>(xs: seq<Option<T>>, m: nat)
    requires m <= |xs|
    ensures forall j: nat :: j in Places(xs, m) <==> j < m && xs[j].Some?
  {
    if m > 0 {
      PlacesExactly(xs, m - 1);
    }
  }

  lemma {:induction false} NoneBetween<T>(xs: seq<Option<T>>, m: nat, n: nat)
    requires m <= n <= |xs| && forall k :: m <= k < n ==> xs[k].None?
    ensures Somes(xs, n) == Somes(xs, m)
    decreases n
  {
    if m < n {
      NoneBetween(xs, m, n - 1);
    }
  }

  /** All sections of a document: document order, numbered from zero. */
  function Sections(lines: seq<string>, sha: string -> string): seq<ParsedSection> {
    Number(Somes(AllDrafts(lines, OutlineOf(lines, MatchHeading), TrimmedText), |lines|), sha)
  }

  lemma NumberSnoc(drafts: seq<Draft>, d: Draft, sha: string -> string)
    ensures Number(drafts + [d], sha) == Number(drafts, sha) + [BuildSection(d, |drafts|, sha)]
  {
  }

  lemma SomesStep<T>(xs: seq<Option<T>>, m: nat)
    requires m < |xs|
    ensures Somes(xs, m + 1) == Somes(xs, m) + (if xs[m].Some? then [xs[m].value] else [])
  {
  }

  /** One more draft, one more section, with the next number. */
  lemma SectionsGrow(drafts: seq<Option<Draft>>, cur: nat, n: nat, sha: string -> string)
    requires cur < n <= |drafts| && forall k :: cur < k < n ==> drafts[k].None?
    ensures Number(Somes(drafts, n), sha) == Appended(Number(Somes(drafts, cur), sha), drafts[cur], sha)
  {
    var before := Somes(drafts, cur);
    NoneBetween(drafts, cur + 1, n);
    SomesStep(drafts, cur);
    if drafts[cur].Some? {
      NumberSnoc(before, drafts[cur].value, sha);
    } else {
      assert before + [] == before;
    }
  }

  function Appended(sections: seq<ParsedSection>, d: Option<Draft>, sha: string -> string): seq<ParsedSection> {
    match d
    case None => sections
    case Some(draft) => sections + [BuildSection(draft, |sections|, sha)]
  }

  lemma {:induction false} SameStackBetween(hs: Outline, m: nat, n: nat)
    requires m <= n <= |hs|
    requires forall k :: m <= k < n ==> hs[k].None?
    ensures HeadingsAt(hs, n) == HeadingsAt(hs, m)
    decreases n
  {
    if m < n {
      SameStackBetween(hs, m, n - 1);
      TextStep(hs, n - 1);
    }
  }

  lemma {:induction false} NextHeadingIs(hs: Outline, h: nat, n: nat)
    requires h < n <= |hs|
    requires forall k :: h < k < n ==> hs[k].None?
    requires n < |hs| ==> hs[n].Some?
    ensures NextHeading(hs, h) == n
    decreases n - h
  {
    if h + 1 < n {
      NextHeadingIs(hs, h + 1, n);
    }
  }

  /** What is under way at line n is the section of the last heading. */
  lemma UnderWay(lines: seq<string>, hs: Outline, cur: nat, n: nat, text: TextOf)
    requires cur < n <= |lines| == |hs| && hs[cur].Some?
    requires forall k :: cur < k < n ==> hs[k].None?
    requires n < |lines| ==> hs[n].Some?
    ensures var h := hs[cur].value;
      AllDrafts(lines, hs, text)[cur] == Finish(h.title, h.level, HeadingsAt(hs, n), lines[cur + 1..n], text)
  {
    NextHeadingIs(hs, cur, n);
    SameStackBetween(hs, cur + 1, n);
  }

  /** The parser's state before line n; cur is the last heading line, -1 before the first. */
  datatype State = State(sections: seq<ParsedSection>, title: string, level: nat, textLines: seq<string>)

  ghost predicate Gathered(lines: seq<string>, hs: Outline, drafts: seq<Option<Draft>>, n: nat, cur: int, s: State,
                           sha: string -> string) {
    && -1 <= cur < n <= |lines| == |hs| == |drafts|
    && (forall k :: cur < k < n ==> hs[k].None?)
    && (cur == -1 ==> s.title == "" && s.sections == [])
    && (cur >= 0 ==>
          && hs[cur] == Some(Heading(s.title, s.level)) && s.textLines == lines[cur + 1..n]
          && s.sections == Number(Somes(drafts, cur), sha))
  }

  lemma NoDraft(lines: seq<string>, hs: Outline, k: nat, text: TextOf)
    requires k < |lines| == |hs| && hs[k].None?
    ensures AllDrafts(lines, hs, text)[k] == None
  {
  }

  /** Flushing at a heading line, or at the end, completes the sections so far. */
  lemma FlushMeaning(lines: seq<string>, hs: Outline, drafts: seq<Option<Draft>>, n: nat, cur: int, s: State, text: TextOf,
                     sha: string -> string)
    requires Gathered(lines, hs, drafts, n, cur, s, sha) && drafts == AllDrafts(lines, hs, text)
    requires n < |lines| ==> hs[n].Some?
    ensures Appended(s.sections, Finish(s.title, s.level, HeadingsAt(hs, n), s.textLines, text), sha) == Number(Somes(drafts, n), sha)
  {
    forall k | cur < k < n ensures drafts[k].None? {
      NoDraft(lines, hs, k, text);
    }
    if cur >= 0 {
      UnderWay(lines, hs, cur, n, text);
      SectionsGrow(drafts, cur, n, sha);
    } else {
      NoneBetween(drafts, 0, n);
    }
  }

  /** The document's sections, in order. */
  method ParseSections(content: string, sha: string -> string) returns (sections: seq<ParsedSection>)
    ensures sections == Sections(Split(content, '\n'), sha)
  {
    var lines := Split(content, '\n');
    ghost var hs := OutlineOf(lines, MatchHeading);
    sections := ParseLines(lines, MatchHeading, TrimmedText, sha, hs, AllDrafts(lines, hs, TrimmedText));
  }

  lemma GatherLine(lines: seq<string>, hs: Outline, drafts: seq<Option<Draft>>, n: nat, cur: int, s: State, sha: string -> string)
    requires Gathered(lines, hs, drafts, n, cur, s, sha) && n < |lines| && hs[n].None?
    ensures Gathered(lines, hs, drafts, n + 1, cur, s.(textLines := s.textLines + [lines[n]]), sha)
  {
  }

  lemma NothingParsed(lines: seq<string>, hs: Outline, drafts: seq<Option<Draft>>, sha: string -> string)
    requires |hs| == |lines| == |drafts|
    ensures Parsed(lines, hs, drafts, 0, Parser(State([], "", 0, []), [], -1), sha)
  {
  }

  /** The loop over the lines; how a line is read and how text is gathered are parameters. */
  method ParseLines(lines: seq<string>, heading: HeadingOf, text: TextOf, sha: string -> string,
                    ghost hs: Outline, ghost drafts: seq<Option<Draft>>)
    returns (sections: seq<ParsedSection>)
    requires hs == OutlineOf(lines, heading) && drafts == AllDrafts(lines, hs, text)
    ensures sections == Number(Somes(drafts, |lines|), sha)
  {
    hide *;
    var p := Parser(State([], "", 0, []), [], -1);
    NothingParsed(lines, hs, drafts, sha);
    var n := 0;
    while n < |lines|
      invariant 0 <= n <= |lines| && Parsed(lines, hs, drafts, n, p, sha)
    {
      var line := lines[n];
      var headingMatch := heading(line);
      p := TakeLine(lines, hs, drafts, n, p, line, headingMatch, text, sha);
      n := n + 1;
    }
    sections := LastFlush(lines, hs, drafts, p, text, sha);
  }

  /** All of the parser's state: what is gathered, the heading stack, and where the last heading was. */
  datatype Parser = Parser(s: State, stack: seq<Heading>, ghost cur: int)

  ghost predicate Parsed(lines: seq<string>, hs: Outline, drafts: seq<Option<Draft>>, n: nat, p: Parser, sha: string -> string) {
    n <= |hs| && p.stack == HeadingsAt(hs, n) && Gathered(lines, hs, drafts, n, p.cur, p.s, sha)
  }

  method LastFlush(ghost lines: seq<string>, ghost hs: Outline, ghost drafts: seq<Option<Draft>>, p: Parser, text: TextOf,
                   sha: string -> string)
    returns (sections: seq<ParsedSection>)
    requires Parsed(lines, hs, drafts, |lines|, p, sha) && drafts == AllDrafts(lines, hs, text)
    ensures sections == Number(Somes(drafts, |lines|), sha)
  {
    FlushMeaning(lines, hs, drafts, |lines|, p.cur, p.s, text, sha);
    sections := Flush(p.s.sections, p.s.title, p.s.level, p.s.textLines, p.stack, text, sha);
  }

  /** The body of the loop: a heading line starts a section, any other line joins the one under way. */
  method TakeLine(ghost lines: seq<string>, ghost hs: Outline, ghost drafts: seq<Option<Draft>>, ghost n: nat, p: Parser,
                  line: string, headingMatch: Option<Heading>, text: TextOf, sha: string -> string)
    returns (p': Parser)
    requires Parsed(lines, hs, drafts, n, p, sha) && n < |lines| && line == lines[n] && hs[n] == headingMatch
    requires drafts == AllDrafts(lines, hs, text)
    ensures Parsed(lines, hs, drafts, n + 1, p', sha)
  {
    if headingMatch.Some? {
      var s, stack := StartSection(lines, hs, drafts, n, p.cur, p.s, p.stack, headingMatch.value, text, sha);
      p' := Parser(s, stack, n);
    } else {
      TextStep(hs, n);
      GatherLine(lines, hs, drafts, n, p.cur, p.s, sha);
      p' := p.(s := p.s.(textLines := p.s.textLines + [line]));
    }
  }

  /** A heading line flushes the section under way, updates the stack and starts a new section. */
  method StartSection(ghost lines: seq<string>, ghost hs: Outline, ghost drafts: seq<Option<Draft>>, ghost n: nat, ghost cur: int,
                      s: State, headingStack: seq<Heading>, heading: Heading, text: TextOf, sha: string -> string)
    returns (s': State, stack: seq<Heading>)
    requires Gathered(lines, hs, drafts, n, cur, s, sha) && n < |lines| && hs[n] == Some(heading)
    requires headingStack == HeadingsAt(hs, n) && drafts == AllDrafts(lines, hs, text)
    ensures stack == HeadingsAt(hs, n + 1) && Gathered(lines, hs, drafts, n + 1, n, s', sha)
  {
    FlushMeaning(lines, hs, drafts, n, cur, s, text, sha);
    var sections := Flush(s.sections, s.title, s.level, s.textLines, headingStack, text, sha);
    stack := PopTo(headingStack, heading.level, hs, n);
    HeadingStep(hs, n);
    stack := stack + [heading];
    s' := State(sections, heading.title, heading.level, []);
  }

  /** Pushes the section under way, when it has a title and some text; its number is the count so far. */
  method Flush(sections: seq<ParsedSection>, currentTitle: string, currentLevel: nat, currentLines: seq<string>,
               headingStack: seq<Heading>, text: TextOf, sha: string -> string)
    returns (all: seq<ParsedSection>)
    ensures all == Appended(sections, Finish(currentTitle, currentLevel, headingStack, currentLines, text), sha)
  {
    all := sections;
    if currentTitle != "" {
      var sectionContent := text(currentLines);
      if |sectionContent| > 0 {
        all := all + [BuildSection(Draft(currentTitle, currentLevel, headingStack, sectionContent), |sections|, sha)];
      }
    }
  }

  /** Pops every heading of the given level or deeper off the stack. */
  method PopTo(stack: seq<Heading>, level: nat, ghost hs: Outline, ghost n: nat) returns (rest: seq<Heading>)
    requires n <= |hs| && stack == HeadingsAt(hs, n)
    ensures rest == Lower(stack, level)
  {
    OpenExactly(hs, n);
    rest := stack;
    while |rest| > 0 && rest[|rest| - 1].level >= level
      invariant |rest| <= |stack| && rest == stack[..|rest|]
      invariant forall i :: |rest| <= i < |stack| ==> stack[i].level >= level
    {
      rest := rest[..|rest| - 1];
    }
    PoppedIsLower(stack, |rest|, level);
  }

  /** The lines that make a section. */
  function SectionLines(lines: seq<string>): seq<nat> {
    Places(AllDrafts(lines, OutlineOf(lines, MatchHeading), TrimmedText), |lines|)
  }

  /** The titles of the headings open after line h, outermost first, with an arrow between any two. */
  ghost predicate PathAt(path: string, hs: Outline, h: nat) {
    var open := OpenLines(hs, h + 1);
    exists titles :: path == Join(titles, " > ") && |titles| == |open| && TitlesOf(titles, hs, open)
  }

  predicate TitlesOf(titles: seq<string>, hs: Outline, open: seq<nat>)
    requires |titles| == |open|
  {
    forall k :: 0 <= k < |open| ==> open[k] < |hs| && hs[open[k]].Some? && hs[open[k]].value.title == titles[k]
  }

  /** Section s, the i-th, is the one of heading line h: number, heading, ancestors and text. */
  ghost predicate IsSectionOf(s: ParsedSection, i: nat, lines: seq<string>, h: nat, sha: string -> string) {
    var hs := OutlineOf(lines, MatchHeading);
    && h < |lines| && hs[h] == Some(Heading(s.title, s.level)) && s.title != ""
    && s.order == i && s.id == "section-" + Decimal(i)
    && PathAt(s.headingPath, hs, h) && h in OpenLines(hs, h + 1)
    && s.content == Trim(Join(lines[h + 1..NextHeading(hs, h)], "\n")) && s.content != ""
    && s.contentHash == sha(s.content)
  }

  /** A heading line with a title and text under it makes a section; no other line does. */
  predicate MakesSection(lines: seq<string>, h: nat) {
    var hs := OutlineOf(lines, MatchHeading);
    && h < |lines| && hs[h].Some? && hs[h].value.title != ""
    && Trim(Join(lines[h + 1..NextHeading(hs, h)], "\n")) != ""
  }

  lemma SectionFrom(lines: seq<string>, hs: Outline, sha: string -> string, d: Draft, i: nat, h: nat)
    requires hs == OutlineOf(lines, MatchHeading) && DraftAt(lines, hs, h, TrimmedText) == Some(d)
    ensures IsSectionOf(BuildSection(d, i, sha), i, lines, h, sha)
  {
    hide MatchHeading, HeadingsAt, OpenLines, Decimal, Join, Trim, NextHeading, PathAt, Titles;
    PathShown(hs, h);
  }

  /** Section i comes from the i-th line that makes one. */
  lemma SectionAt(lines: seq<string>, sha: string -> string, i: nat)
    requires i < |SectionLines(lines)|
    ensures i < |Sections(lines, sha)| && IsSectionOf(Sections(lines, sha)[i], i, lines, SectionLines(lines)[i], sha)
  {
    hide MatchHeading, DraftAt, IsSectionOf, Places, Somes, TrimmedText;
    var hs := OutlineOf(lines, MatchHeading);
    var drafts := AllDrafts(lines, hs, TrimmedText);
    var h := SectionLines(lines)[i];
    SomesAtPlaces(drafts, |lines|);
    assert drafts[h] == Some(Somes(drafts, |lines|)[i]) == DraftAt(lines, hs, h, TrimmedText);
    assert Sections(lines, sha)[i] == BuildSection(Somes(drafts, |lines|)[i], i, sha);
    SectionFrom(lines, hs, sha, Somes(drafts, |lines|)[i], i, h);
  }

  lemma PathShown(hs: Outline, h: nat)
    requires h < |hs| && hs[h].Some?
    ensures PathAt(Join(Titles(HeadingsAt(hs, h + 1)), " > "), hs, h) && h in OpenLines(hs, h + 1)
  {
    OpenExactly(hs, h + 1);
    hide HeadingsAt, OpenLines, Join;
    assert IsOpen(hs, h + 1, h);
    assert TitlesOf(Titles(HeadingsAt(hs, h + 1)), hs, OpenLines(hs, h + 1));
  }

  /** The sections are those of the lines that make one: in document order, numbered from zero, none left out. */
  lemma SectionsMeaning(lines: seq<string>, sha: string -> string)
    ensures |Sections(lines, sha)| == |SectionLines(lines)|
    ensures forall i :: 0 <= i < |SectionLines(lines)| ==> IsSectionOf(Sections(lines, sha)[i], i, lines, SectionLines(lines)[i], sha)
    ensures forall h: nat :: h in SectionLines(lines) <==> MakesSection(lines, h)
    ensures forall j, k :: 0 <= j < k < |SectionLines(lines)| ==> SectionLines(lines)[j] < SectionLines(lines)[k]
  {
    forall i | 0 <= i < |SectionLines(lines)|
      ensures i < |Sections(lines, sha)| && IsSectionOf(Sections(lines, sha)[i], i, lines, SectionLines(lines)[i], sha)
    {
      SectionAt(lines, sha, i);
    }
    forall h: nat ensures h in SectionLines(lines) <==> MakesSection(lines, h) {
      LineMakesSection(lines, h);
    }
  }

  lemma LineMakesSection(lines: seq<string>, h: nat)
    ensures h in SectionLines(lines) <==> MakesSection(lines, h)
  {
    PlacesExactly(AllDrafts(lines, OutlineOf(lines, MatchHeading), TrimmedText), |lines|);
  }
}
