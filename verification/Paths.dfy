/**
 Pathnames as the watch cache compares and rewrites them: plain character
 strings, with the test for "at or below" done on a '/' boundary.
 */
module Paths {

  /** The result of snprintf("%s/%s", prefix, name). */
  function Join(prefix: string, name: string): string {
    prefix + "/" + name
  }

  /** `path` starts with `top`, and what follows is nothing or starts with '/'. */
  predicate AtOrBelow(path: string, top: string) {
    && |top| <= |path|
    && path[..|top|] == top
    && (|path| == |top| || path[|top|] == '/')
  }

  /** `path` after `oldTop` has been renamed to `newTop`. */
  function Renamed(path: string, oldTop: string, newTop: string): string {
    if AtOrBelow(path, oldTop) then newTop + path[|oldTop|..] else path
  }

  /** A directory entry's name: not empty, and without a separator. */
  predicate GoodName(name: string) {
    name != "" && '/' !in name
  }

  /** A root given on the command line: not empty, no trailing separator. */
  predicate GoodRoot(path: string) {
    path != "" && path[|path| - 1] != '/'
  }

  lemma JoinAt(prefix: string, name: string)
    ensures Join(prefix, name)[..|prefix|] == prefix
    ensures Join(prefix, name)[|prefix|] == '/'
    ensures Join(prefix, name)[|prefix| + 1..] == name
  {
  }

  /** A name has no separator, so the last '/' of a joined path is the join. */
  lemma JoinIsLastSeparator(prefix: string, name: string)
    requires GoodName(name)
    ensures forall i :: |prefix| < i <= |prefix| + |name| ==> Join(prefix, name)[i] != '/'
  {
  }

  lemma JoinInjective(p: string, n: string, q: string, m: string)
    requires GoodName(n) && GoodName(m)
    requires Join(p, n) == Join(q, m)
    ensures p == q && n == m
  {
    JoinAt(p, n);
    JoinAt(q, m);
    JoinIsLastSeparator(p, n);
    JoinIsLastSeparator(q, m);
    assert |p| == |q|;
  }

  lemma JoinBelow(p: string, n: string, top: string)
    requires AtOrBelow(p, top)
    ensures AtOrBelow(Join(p, n), top)
    ensures Join(p, n)[|top|..] == Join(p[|top|..], n)
  {
  }

  /** What lies at or below `top` is `top` itself or has its parent there. */
  lemma BelowJoin(p: string, n: string, top: string)
    requires GoodName(n)
    requires AtOrBelow(Join(p, n), top)
    ensures Join(p, n) == top || AtOrBelow(p, top)
  {
  }

  lemma AtOrBelowTransitive(a: string, b: string, c: string)
    requires AtOrBelow(a, b) && AtOrBelow(b, c)
    ensures AtOrBelow(a, c)
  {
  }

  /** Of two ancestors of the same path, one is an ancestor of the other. */
  lemma AncestorsComparable(a: string, b: string, c: string)
    requires AtOrBelow(a, b) && AtOrBelow(a, c)
    ensures AtOrBelow(b, c) || AtOrBelow(c, b)
  {
    assert |c| <= |b| ==> b[..|c|] == a[..|b|][..|c|] == a[..|c|];
    assert |b| <= |c| ==> c[..|b|] == a[..|c|][..|b|] == a[..|b|];
  }

  /** Two paths at or below `oldTop` lie to each other as before once it is renamed. */
  lemma RenamedTogether(p: string, q: string, oldTop: string, newTop: string)
    requires AtOrBelow(p, oldTop) && AtOrBelow(q, oldTop)
    ensures AtOrBelow(Renamed(p, oldTop, newTop), Renamed(q, oldTop, newTop)) <==> AtOrBelow(p, q)
  {
    var n, s, t := |oldTop|, p[|oldTop|..], q[|oldTop|..];
    assert p == oldTop + s && q == oldTop + t;
    assert AtOrBelow(p, q) <==> AtOrBelow(s, t) by { SameStart(oldTop, s, t); }
    SameStart(newTop, s, t);
  }

  lemma SameStart(top: string, s: string, t: string)
    ensures AtOrBelow(top + s, top + t) <==> AtOrBelow(s, t)
  {
    if |t| <= |s| {
      assert (top + s)[..|top + t|] == top + s[..|t|];
      assert (top + s[..|t|])[|top|..] == s[..|t|] && (top + t)[|top|..] == t;
      assert |t| < |s| ==> (top + s)[|top + t|] == s[|t|];
    }
  }

  /** The rewrite moves exactly what was at or below the old path. */
  lemma RenamedExact(path: string, oldTop: string, newTop: string)
    ensures Renamed(path, oldTop, newTop) != path ==> AtOrBelow(path, oldTop)
    ensures AtOrBelow(path, oldTop) ==> AtOrBelow(Renamed(path, oldTop, newTop), newTop)
    ensures AtOrBelow(path, oldTop) ==> Renamed(path, oldTop, newTop)[|newTop|..] == path[|oldTop|..]
  {
  }

  /** Renaming there and back is the identity, unless the path was at the target only. */
  lemma RenamedRoundTrip(path: string, oldTop: string, newTop: string)
    ensures Renamed(Renamed(path, oldTop, newTop), newTop, oldTop) == path
      <==> (AtOrBelow(path, newTop) ==> AtOrBelow(path, oldTop))
  {
  }

  /** A sibling that merely shares a string prefix is left alone. */
  lemma SiblingUntouched(prefix: string, name: string, suffix: string, newTop: string)
    requires suffix != "" && suffix[0] != '/'
    ensures var sibling := Join(prefix, name) + suffix;
      Renamed(sibling, Join(prefix, name), newTop) == sibling
  {
  }
}
