/** Reachability in a directed graph given by a successor function. */
module Reachability {

  /** A path that starts at a root. */
  ghost predicate IsPath<T>(roots: set<T>, succ: T -> set<T>, path: seq<T>) {
    && |path| > 0
    && path[0] in roots
    && forall i :: 0 <= i < |path| - 1 ==> path[i + 1] in succ(path[i])
  }

  ghost predicate Reaches<T(!new)>(roots: set<T>, succ: T -> set<T>, x: T) {
    exists path :: IsPath(roots, succ, path) && path[|path| - 1] == x
  }

  lemma RootsAreReached<T(!new)>(roots: set<T>, succ: T -> set<T>, x: T)
    requires x in roots
    ensures Reaches(roots, succ, x)
  {
    assert IsPath(roots, succ, [x]);
  }

  lemma SuccessorsAreReached<T(!new)>(roots: set<T>, succ: T -> set<T>, x: T, y: T)
    requires Reaches(roots, succ, x) && y in succ(x)
    ensures Reaches(roots, succ, y)
  {
    var path :| IsPath(roots, succ, path) && path[|path| - 1] == x;
    assert IsPath(roots, succ, path + [y]);
    assert (path + [y])[|path + [y]| - 1] == y;
  }

  /** A set that holds the roots and all successors of its members holds every reachable node. */
  lemma ClosedHoldsReachable<T(!new)>(roots: set<T>, succ: T -> set<T>, closed: set<T>, x: T)
    requires roots <= closed
    requires forall n, m :: n in closed && m in succ(n) ==> m in closed
    requires Reaches(roots, succ, x)
    ensures x in closed
  {
    var path :| IsPath(roots, succ, path) && path[|path| - 1] == x;
    PathStaysInside(roots, succ, closed, path, |path| - 1);
  }

  lemma {:induction false} PathStaysInside<T(!new)>(roots: set<T>, succ: T -> set<T>, closed: set<T>, path: seq<T>,
                                             i: nat)
    requires roots <= closed
    requires forall n, m :: n in closed && m in succ(n) ==> m in closed
    requires IsPath(roots, succ, path) && i < |path|
    ensures path[i] in closed
  {
    if i > 0 {
      PathStaysInside(roots, succ, closed, path, i - 1);
      assert path[i - 1 + 1] in succ(path[i - 1]);
    }
  }

  /** Reachability can only grow with the graph. */
  lemma MoreEdgesReachMore<T(!new)>(roots: set<T>, succ: T -> set<T>, roots': set<T>, succ': T -> set<T>, x: T)
    requires roots <= roots' && forall n :: succ(n) <= succ'(n)
    requires Reaches(roots, succ, x)
    ensures Reaches(roots', succ', x)
  {
    var path :| IsPath(roots, succ, path) && path[|path| - 1] == x;
    assert IsPath(roots', succ', path);
  }

  // ----- the worklist closure -----

  /** What a closure computation keeps: nothing unreachable is known, and nothing next is lost. */
  ghost predicate Frontier<T(!new)>(roots: set<T>, succ: T -> set<T>, done: set<T>, pending: set<T>) {
    && (forall n :: n in done || n in pending ==> Reaches(roots, succ, n))
    && roots <= done + pending
    && (forall d :: d in done ==> succ(d) <= done + pending)
  }

  lemma FrontierStart<T(!new)>(roots: set<T>, succ: T -> set<T>)
    ensures Frontier(roots, succ, {}, roots)
  {
    forall n | n in roots ensures Reaches(roots, succ, n) {
      RootsAreReached(roots, succ, n);
    }
  }

  /** One pending node is done; its successors are pending or done already. */
  lemma FrontierStep<T(!new)>(roots: set<T>, succ: T -> set<T>, done: set<T>, pending: set<T>, n: T, pending': set<T>)
    requires Frontier(roots, succ, done, pending) && n in pending + done
    requires pending + succ(n) <= pending' + done + {n}
    requires pending' <= pending + succ(n)
    ensures Frontier(roots, succ, done + {n}, pending')
  {
    forall m | m in pending' ensures Reaches(roots, succ, m) {
      if m in succ(n) {
        SuccessorsAreReached(roots, succ, n, m);
      }
    }
  }

  /** With nothing pending, exactly the reachable nodes are done. */
  lemma FrontierDone<T(!new)>(roots: set<T>, succ: T -> set<T>, done: set<T>)
    requires Frontier(roots, succ, done, {})
    ensures forall n :: n in done <==> Reaches(roots, succ, n)
  {
    forall n | Reaches(roots, succ, n) ensures n in done {
      ClosedHoldsReachable(roots, succ, done, n);
    }
  }
}
