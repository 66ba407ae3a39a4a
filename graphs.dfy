/**
 * Reachability in a finite link graph, given as a map from a page to the set
 * of pages it links to; a page the map does not hold links nowhere.
 */
module Graphs {

  function Out<T>(g: map<T, set<T>>, p: T): set<T> {
    if p in g then g[p] else {}
  }

  /** A chain of pages from `start`, each linked from the one before. */
  ghost predicate IsPath<T>(g: map<T, set<T>>, start: T, path: seq<T>) {
    && |path| > 0
    && path[0] == start
    && forall i :: 0 <= i < |path| - 1 ==> path[i + 1] in Out(g, path[i])
  }

  ghost predicate Reachable<T(!new)>(g: map<T, set<T>>, start: T, u: T) {
    exists path :: IsPath(g, start, path) && path[|path| - 1] == u
  }

  /** Every link of a member of `r` is in `r`. */
  ghost predicate Closed<T>(g: map<T, set<T>>, r: set<T>) {
    forall p :: p in r ==> Out(g, p) <= r
  }

  /** A closed set holding the start holds the end of every path from it. */
  lemma {:induction false} ClosedSetHoldsPath<T>(g: map<T, set<T>>, start: T, r: set<T>, path: seq<T>)
    requires start in r && Closed(g, r)
    requires IsPath(g, start, path)
    ensures path[|path| - 1] in r
    decreases |path|
  {
    if |path| > 1 {
      var prefix := path[..|path| - 1];
      assert IsPath(g, start, prefix);
      ClosedSetHoldsPath(g, start, r, prefix);
      assert path[|path| - 1] in Out(g, path[|path| - 2]);
    }
  }

  /** The page at position `i` of a log is linked from a page logged before it. */
  ghost predicate LinkedEarlier<T>(g: map<T, set<T>>, log: seq<T>, i: int)
    requires 0 <= i < |log|
  {
    exists j :: 0 <= j < i && log[i] in Out(g, log[j])
  }

  /** A discovery order from `start`: it comes first, and every later page is linked from an earlier one. */
  ghost predicate Discovered<T>(g: map<T, set<T>>, start: T, log: seq<T>) {
    && (|log| > 0 ==> log[0] == start)
    && forall i :: 0 < i < |log| ==> LinkedEarlier(g, log, i)
  }

  /** Every page of a discovery order is reachable from its start. */
  lemma {:induction false} DiscoveredIsReachable<T>(g: map<T, set<T>>, start: T, log: seq<T>, i: int)
    returns (path: seq<T>)
    requires Discovered(g, start, log) && 0 <= i < |log|
    ensures IsPath(g, start, path) && path[|path| - 1] == log[i]
    decreases i
  {
    if i == 0 {
      path := [log[0]];
    } else {
      assert LinkedEarlier(g, log, i);
      var j :| 0 <= j < i && log[i] in Out(g, log[j]);
      var prefix := DiscoveredIsReachable(g, start, log, j);
      path := prefix + [log[i]];
      forall k | 0 <= k < |path| - 1
        ensures path[k + 1] in Out(g, path[k])
      {
        if k < |prefix| - 1 {
          assert path[k] == prefix[k] && path[k + 1] == prefix[k + 1];
        } else {
          assert path[k] == log[j] && path[k + 1] == log[i];
        }
      }
    }
  }

  /**
   * A closed set that holds the start and whose members are all reachable
   * is exactly the set of pages reachable from the start.
   */
  lemma ClosedReachableSetIsReachability<T(!new)>(g: map<T, set<T>>, start: T, r: set<T>)
    requires start in r && Closed(g, r)
    requires forall u :: u in r ==> Reachable(g, start, u)
    ensures forall u :: u in r <==> Reachable(g, start, u)
  {
    forall u | Reachable(g, start, u)
      ensures u in r
    {
      var path :| IsPath(g, start, path) && path[|path| - 1] == u;
      ClosedSetHoldsPath(g, start, r, path);
    }
  }

  predicate NoDuplicates<T(==)>(s: seq<T>) {
    forall i, j :: 0 <= i < j < |s| ==> s[i] != s[j]
  }

  /**
   * A visited set and the log of visits made: the universe holds the start
   * and every link, the visited set stays inside it, every visited page is
   * logged exactly once, and the log is a discovery order from the start.
   */
  ghost predicate VisitLog<T(!new)>(g: map<T, set<T>>, start: T, universe: set<T>, visited: set<T>, log: seq<T>) {
    && start in universe
    && (forall p :: Out(g, p) <= universe)
    && visited <= universe
    && NoDuplicates(log)
    && (forall u :: u in visited <==> u in log)
    && Discovered(g, start, log)
  }

  /** `x` is a link of some page of the log. */
  ghost predicate LinkedFromLog<T>(g: map<T, set<T>>, log: seq<T>, x: T) {
    exists j :: 0 <= j < |log| && x in Out(g, log[j])
  }

  /** Visiting the start first, or a link of a logged page later, keeps the visit log. */
  lemma VisitStep<T(!new)>(g: map<T, set<T>>, start: T, universe: set<T>, visited: set<T>, log: seq<T>, x: T)
    requires VisitLog(g, start, universe, visited, log)
    requires x !in visited
    requires (log == [] && x == start) || LinkedFromLog(g, log, x)
    ensures x in universe
    ensures VisitLog(g, start, universe, visited + {x}, log + [x])
  {
    var log' := log + [x];
    if log != [] {
      var j :| 0 <= j < |log| && x in Out(g, log[j]);
      assert log'[j] == log[j];
      assert LinkedEarlier(g, log', |log|);
    }
    forall i | 0 < i < |log|
      ensures LinkedEarlier(g, log', i)
    {
      assert LinkedEarlier(g, log, i);
      var j :| 0 <= j < i && log[i] in Out(g, log[j]);
      assert log'[i] == log[i] && log'[j] == log[j];
    }
    assert x !in log;
  }

  lemma PrefixTransitive<T>(a: seq<T>, b: seq<T>, c: seq<T>)
    requires a <= b && b <= c
    ensures a <= c
  {
    assert c[..|b|] == b;
    assert b[..|a|] == a;
    assert c[..|a|] == a;
  }

}
