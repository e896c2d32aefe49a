/** String helpers of the JavaScript library, on plain character sequences. */
module Strings {

  /** Pieces between occurrences of a separator character; never empty. */
  function Split(s: string, sep: char): (parts: seq<string>)
    ensures |parts| > 0
    ensures sep !in s ==> parts == [s]
  {
    if s == [] then [""]
    else if s[0] == sep then [""] + Split(s[1..], sep)
    else
      var rest := Split(s[1..], sep);
      assert [s[0]] + s[1..] == s;
      [[s[0]] + rest[0]] + rest[1..]
  }

  lemma {:induction false} SplitDotted(s: string, sep: char)
    requires sep in s
    ensures |Split(s, sep)| > 1
    ensures forall i :: 0 <= i < |Split(s, sep)| ==> |Split(s, sep)[i]| < |s|
  {
    if s[0] == sep {
      if sep in s[1..] { SplitDotted(s[1..], sep); }
    } else {
      SplitDotted(s[1..], sep);
    }
  }

  function Join(parts: seq<string>, sep: string): string {
    if parts == [] then ""
    else if |parts| == 1 then parts[0]
    else parts[0] + sep + Join(parts[1..], sep)
  }

  lemma JoinHead(a: string, b: string, more: seq<string>, sep: string)
    ensures Join([a + b] + more, sep) == a + Join([b] + more, sep)
  {
    if more != [] {
      assert ([a + b] + more)[1..] == more == ([b] + more)[1..];
    }
  }

  /** Splitting is undone by joining, and no piece holds the separator. */
  lemma {:induction false} SplitExactly(s: string, sep: char)
    ensures Join(Split(s, sep), [sep]) == s
    ensures forall i :: 0 <= i < |Split(s, sep)| ==> sep !in Split(s, sep)[i]
  {
    if s != "" {
      var rest := Split(s[1..], sep);
      SplitExactly(s[1..], sep);
      assert s == [s[0]] + s[1..];
      if s[0] == sep {
        assert ([""] + rest)[1..] == rest;
      } else {
        JoinHead([s[0]], rest[0], rest[1..], [sep]);
        assert rest == [rest[0]] + rest[1..];
        assert forall i :: 1 <= i < |rest| ==> ([[s[0]] + rest[0]] + rest[1..])[i] == rest[i];
      }
    }
  }

  /** A number in decimal, without leading zeros. */
  function Decimal(n: nat): (t: string)
    ensures t != "" && forall k :: 0 <= k < |t| ==> '0' <= t[k] <= '9'
    ensures n > 0 ==> t[0] != '0'
  {
    if n < 10 then ['0' + n as char] else Decimal(n / 10) + ['0' + (n % 10) as char]
  }

  predicate OccursAt(s: string, t: string, i: nat) {
    i + |t| <= |s| && s[i..i + |t|] == t
  }

  predicate Contains(s: string, t: string) {
    exists i :: 0 <= i <= |s| && OccursAt(s, t, i)
  }

  predicate Ascii(s: string) {
    forall i :: 0 <= i < |s| ==> s[i] < '\U{80}'
  }

  function LowerChar(c: char): char {
    if 'A' <= c <= 'Z' then (c as int + 32) as char else c
  }

  function UpperChar(c: char): char {
    if 'a' <= c <= 'z' then (c as int - 32) as char else c
  }

  /** The letters of the two cases, one by one; no other character changes. */
  lemma CaseExactly(i: nat, c: char)
    requires i < 26
    ensures LowerChar("ABCDEFGHIJKLMNOPQRSTUVWXYZ"[i]) == "abcdefghijklmnopqrstuvwxyz"[i]
    ensures UpperChar("abcdefghijklmnopqrstuvwxyz"[i]) == "ABCDEFGHIJKLMNOPQRSTUVWXYZ"[i]
    ensures c !in "ABCDEFGHIJKLMNOPQRSTUVWXYZ" ==> LowerChar(c) == c
    ensures c !in "abcdefghijklmnopqrstuvwxyz" ==> UpperChar(c) == c
  {
    if 'A' <= c <= 'Z' { assert c == "ABCDEFGHIJKLMNOPQRSTUVWXYZ"[c as int - 'A' as int]; }
    if 'a' <= c <= 'z' { assert c == "abcdefghijklmnopqrstuvwxyz"[c as int - 'a' as int]; }
  }

  function AsciiLower(s: string): (r: string)
    ensures |r| == |s| && forall i :: 0 <= i < |s| ==> r[i] == LowerChar(s[i])
  {
    seq(|s|, i requires 0 <= i < |s| => LowerChar(s[i]))
  }

  function AsciiUpper(s: string): (r: string)
    ensures |r| == |s| && forall i :: 0 <= i < |s| ==> r[i] == UpperChar(s[i])
  {
    seq(|s|, i requires 0 <= i < |s| => UpperChar(s[i]))
  }

  /** What the dot of a regular expression does not match. */
  predicate LineTerminator(c: char) {
    c == '\n' || c == '\r' || c == '\U{2028}' || c == '\U{2029}'
  }

  /** White space and line terminators, as String.prototype.trim and \s see them. */
  predicate IsSpace(c: char) {
    || '\t' <= c <= '\r' || c == ' ' || c == '\U{A0}' || c == '\U{1680}' || '\U{2000}' <= c <= '\U{200A}'
    || c == '\U{2028}' || c == '\U{2029}' || c == '\U{202F}' || c == '\U{205F}' || c == '\U{3000}' || c == '\U{FEFF}'
  }

  /** The white space of ECMA-262, sections 12.2 and 12.3, character by character. */
  const SPACES := "\t\n\U{B}\U{C}\r \U{A0}\U{1680}\U{2000}\U{2001}\U{2002}\U{2003}\U{2004}\U{2005}\U{2006}\U{2007}\U{2008}\U{2009}\U{200A}\U{2028}\U{2029}\U{202F}\U{205F}\U{3000}\U{FEFF}"

  lemma SpacesExactly(c: char)
    ensures IsSpace(c) <==> c in SPACES
    ensures LineTerminator(c) <==> c in "\n\r\U{2028}\U{2029}"
  {
  }

  predicate Blank(s: string) {
    forall i :: 0 <= i < |s| ==> IsSpace(s[i])
  }

  /** String.prototype.trim: from the first to the last character that is not white space. */
  function Trim(s: string): (r: string)
    ensures r == "" <==> Blank(s)
  {
    if s == "" then ""
    else if IsSpace(s[0]) then Trim(s[1..])
    else if IsSpace(s[|s| - 1]) then Trim(s[..|s| - 1])
    else s
  }

  lemma BlankMore(c: char, s: string)
    requires IsSpace(c) && Blank(s)
    ensures Blank([c] + s) && Blank(s + [c])
  {
  }

  lemma MoreInFront(s: string, head: string, t: string, tail: string)
    requires s != "" && s[1..] == head + t + tail
    ensures s == [s[0]] + head + t + tail
  {
    assert s == [s[0]] + s[1..];
  }

  lemma MoreBehind(s: string, head: string, t: string, tail: string)
    requires s != "" && s[..|s| - 1] == head + t + tail
    ensures s == head + t + (tail + [s[|s| - 1]])
  {
    assert s == s[..|s| - 1] + [s[|s| - 1]];
  }

  /** The text without its blank ends, which the proof yields. */
  lemma {:induction false} TrimExactly(s: string) returns (head: string, tail: string)
    ensures s == head + Trim(s) + tail && Blank(head) && Blank(tail)
    ensures var t := Trim(s); t != "" ==> !IsSpace(t[0]) && !IsSpace(t[|t| - 1])
    decreases |s|
  {
    hide IsSpace;
    if s != "" && IsSpace(s[0]) {
      head, tail := TrimExactly(s[1..]);
      BlankMore(s[0], head);
      MoreInFront(s, head, Trim(s), tail);
      head := [s[0]] + head;
    } else if s != "" && IsSpace(s[|s| - 1]) {
      head, tail := TrimExactly(s[..|s| - 1]);
      BlankMore(s[|s| - 1], tail);
      MoreBehind(s, head, Trim(s), tail);
      tail := tail + [s[|s| - 1]];
    } else {
      head, tail := "", "";
      assert s == head + s + tail;
    }
  }

  /** The order of JavaScript's < on strings. */
  predicate TextLess(a: string, b: string) {
    b != "" && (a == "" || a[0] < b[0] || (a[0] == b[0] && TextLess(a[1..], b[1..])))
  }

  /** The first difference decides, and a proper prefix comes first. */
  lemma {:induction false} TextLessExactly(a: string, b: string)
    ensures TextLess(a, b) <==> exists k :: 0 <= k <= |a| && k < |b| && a[..k] == b[..k] && (k == |a| || a[k] < b[k])
  {
    if a == "" || b == "" {
      assert b != "" ==> a[..0] == b[..0];
    } else if a[0] != b[0] {
      assert a[..0] == b[..0];
      forall k | 0 < k <= |a| && k < |b| ensures a[..k] != b[..k] {
        assert a[..k][0] == a[0] && b[..k][0] == b[0];
      }
    } else {
      var c, d := a[1..], b[1..];
      TextLessExactly(c, d);
      if k :| 0 <= k <= |c| && k < |d| && c[..k] == d[..k] && (k == |c| || c[k] < d[k]) {
        assert a[..k + 1] == [a[0]] + c[..k] == [b[0]] + d[..k] == b[..k + 1];
      }
      if k :| 0 <= k <= |a| && k < |b| && a[..k] == b[..k] && (k == |a| || a[k] < b[k]) {
        assert k > 0;
        assert c[..k - 1] == a[..k][1..] == b[..k][1..] == d[..k - 1];
        assert k < |a| ==> c[k - 1] == a[k] && d[k - 1] == b[k];
      }
    }
  }

  lemma TextOrderCons(c: char, d: char, a: string, b: string)
    ensures TextLess([c] + a, [d] + b) <==> c < d || (c == d && TextLess(a, b))
  {
    assert ([c] + a)[1..] == a && ([d] + b)[1..] == b;
  }

  lemma {:induction false} TextOrder(a: string, b: string, c: string)
    ensures TextLess(a, b) && TextLess(b, c) ==> TextLess(a, c)
    ensures TextLess(a, b) || a == b || TextLess(b, a)
  {
    if a != "" && b != "" && a[0] == b[0] {
      TextOrder(a[1..], b[1..], if c != "" then c[1..] else c);
      if a[1..] == b[1..] { assert [a[0]] + a[1..] == a && [b[0]] + b[1..] == b; }
    }
  }

  /** Texts that start with equally long heads compare by their heads first. */
  lemma {:induction false} TextOrderConcat(a: string, b: string, c: string, d: string)
    requires |a| == |c|
    ensures TextLess(a + b, c + d) <==> TextLess(a, c) || (a == c && TextLess(b, d))
  {
    if a == "" {
      assert a + b == b && c + d == d;
    } else {
      TextOrderConcat(a[1..], b, c[1..], d);
      assert a + b == [a[0]] + (a[1..] + b) && c + d == [c[0]] + (c[1..] + d);
      assert a == [a[0]] + a[1..] && c == [c[0]] + c[1..];
      TextOrderCons(a[0], c[0], a[1..] + b, c[1..] + d);
    }
  }
}
