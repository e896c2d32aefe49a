/** Walks in a graph given by successor sets: reachability and distance. */
module Walks {

  type Node = string

  ghost predicate IsWalk(succ: Node -> set<Node>, a: Node, b: Node, p: seq<Node>) {
    && p != []
    && p[0] == a
    && p[|p| - 1] == b
    && forall i :: 0 <= i < |p| - 1 ==> p[i + 1] in succ(p[i])
  }

  ghost predicate Reachable(succ: Node -> set<Node>, a: Node, b: Node) {
    exists p :: IsWalk(succ, a, b, p)
  }

  /** b is at distance at most n from a. */
  ghost predicate AtDistance(succ: Node -> set<Node>, a: Node, b: Node, n: nat) {
    exists p :: IsWalk(succ, a, b, p) && |p| <= n + 1
  }

  ghost function Image(succ: Node -> set<Node>, s: set<Node>): set<Node> {
    set x, y | x in s && y in succ(x) :: y
  }

  /** Breadth-first levels: everything at distance at most n. */
  ghost function Within(succ: Node -> set<Node>, a: Node, n: nat): set<Node> {
    if n == 0 then {a} else Within(succ, a, n - 1) + Image(succ, Within(succ, a, n - 1))
  }

  lemma ExtendWalk(succ: Node -> set<Node>, a: Node, b: Node, p: seq<Node>, c: Node)
    requires IsWalk(succ, a, b, p) && c in succ(b)
    ensures IsWalk(succ, a, c, p + [c])
  {
    var q := p + [c];
    forall i | 0 <= i < |q| - 1 ensures q[i + 1] in succ(q[i]) {
      if i < |p| - 1 { assert p[i + 1] in succ(p[i]); }
    }
  }

  lemma {:induction false} WithinHasWalk(succ: Node -> set<Node>, a: Node, n: nat, b: Node)
    requires b in Within(succ, a, n)
    ensures AtDistance(succ, a, b, n)
  {
    if n == 0 {
      assert IsWalk(succ, a, a, [a]);
    } else if b in Within(succ, a, n - 1) {
      WithinHasWalk(succ, a, n - 1, b);
    } else {
      var x :| x in Within(succ, a, n - 1) && b in succ(x);
      WithinHasWalk(succ, a, n - 1, x);
      var p :| IsWalk(succ, a, x, p) && |p| <= n;
      ExtendWalk(succ, a, x, p, b);
    }
  }

  lemma {:induction false} WalkStaysWithin(succ: Node -> set<Node>, a: Node, b: Node, p: seq<Node>)
    requires IsWalk(succ, a, b, p)
    ensures b in Within(succ, a, |p| - 1)
    decreases |p|
  {
    if |p| > 1 {
      var q := p[..|p| - 1];
      var x := q[|q| - 1];
      assert IsWalk(succ, a, x, q);
      WalkStaysWithin(succ, a, x, q);
      assert p[|q| - 1 + 1] in succ(p[|q| - 1]);
    }
  }

  lemma {:induction false} WithinMonotone(succ: Node -> set<Node>, a: Node, m: nat, n: nat)
    requires m <= n
    ensures Within(succ, a, m) <= Within(succ, a, n)
    decreases n - m
  {
    if m < n {
      WithinMonotone(succ, a, m + 1, n);
    }
  }

  /** The levels are exactly the distances. */
  lemma WithinIsDistance(succ: Node -> set<Node>, a: Node, n: nat, b: Node)
    ensures b in Within(succ, a, n) <==> AtDistance(succ, a, b, n)
  {
    if b in Within(succ, a, n) {
      WithinHasWalk(succ, a, n, b);
    }
    if p :| IsWalk(succ, a, b, p) && |p| <= n + 1 {
      WalkStaysWithin(succ, a, b, p);
      WithinMonotone(succ, a, |p| - 1, n);
    }
  }

  /** Once a level adds nothing, no later one does. */
  lemma {:induction false} WithinSettles(succ: Node -> set<Node>, a: Node, m: nat, n: nat)
    requires m <= n && Image(succ, Within(succ, a, m)) <= Within(succ, a, m)
    ensures Within(succ, a, n) == Within(succ, a, m)
    decreases n - m
  {
    if m < n {
      assert Within(succ, a, m + 1) == Within(succ, a, m);
      WithinSettles(succ, a, m + 1, n);
    }
  }

  lemma {:induction false} ClosedContainsWalk(succ: Node -> set<Node>, s: set<Node>, a: Node, b: Node, p: seq<Node>)
    requires a in s && Image(succ, s) <= s && IsWalk(succ, a, b, p)
    ensures b in s
    decreases |p|
  {
    if |p| > 1 {
      assert p[0 + 1] in succ(p[0]);
      assert p[1] in Image(succ, s);
      assert IsWalk(succ, p[1], b, p[1..]) by {
        forall i | 0 <= i < |p| - 2 ensures p[1..][i + 1] in succ(p[1..][i]) {
          assert p[(i + 1) + 1] in succ(p[i + 1]);
        }
      }
      ClosedContainsWalk(succ, s, p[1], b, p[1..]);
    }
  }

  /** A set that contains a, is closed, and holds only reachable nodes is the reachable set. */
  lemma ReachableSet(succ: Node -> set<Node>, s: set<Node>, a: Node, b: Node)
    requires a in s && Image(succ, s) <= s
    requires forall x :: x in s ==> Reachable(succ, a, x)
    ensures b in s <==> Reachable(succ, a, b)
  {
    if p :| IsWalk(succ, a, b, p) {
      ClosedContainsWalk(succ, s, a, b, p);
    }
  }

  lemma ReachableStep(succ: Node -> set<Node>, a: Node, b: Node, c: Node)
    requires Reachable(succ, a, b) && c in succ(b)
    ensures Reachable(succ, a, c)
  {
    var p :| IsWalk(succ, a, b, p);
    ExtendWalk(succ, a, b, p, c);
  }
}
