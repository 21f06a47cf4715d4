/** Cycles of a relation between numbered things, and sets that it does not lead out of. */
module Graph {
  type Edges = set<(nat, nat)>

  predicate LeadsInto(w: Edges, p: nat, x: set<nat>) {
    exists q | q in x :: (p, q) in w
  }

  /** Everything in `x` leads to something in `x`. */
  predicate Closed(w: Edges, x: set<nat>) {
    x != {} && forall p {:trigger LeadsInto(w, p, x)} | p in x :: LeadsInto(w, p, x)
  }

  ghost predicate HasClosed(w: Edges) {
    exists x: set<nat> :: Closed(w, x)
  }

  predicate IsPath(w: Edges, path: seq<nat>) {
    forall i | 0 <= i < |path| - 1 :: (path[i], path[i + 1]) in w
  }

  /** A path that ends where it starts. */
  predicate IsCycle(w: Edges, path: seq<nat>) {
    |path| >= 2 && IsPath(w, path) && path[0] == path[|path| - 1]
  }

  ghost predicate Cyclic(w: Edges) {
    exists path: seq<nat> :: IsCycle(w, path)
  }

  predicate NoRepeats(path: seq<nat>) {
    forall i, j | 0 <= i < j < |path| :: path[i] != path[j]
  }

  lemma {:induction false} DistinctIn(path: seq<nat>, x: set<nat>)
    requires NoRepeats(path) && forall i | 0 <= i < |path| :: path[i] in x
    ensures |path| <= |x|
    decreases |path|
  {
    if path == [] {
    } else {
      DistinctIn(path[1..], x - {path[0]});
    }
  }

  /** Going on from a path through a closed set comes back to where it has been. */
  lemma {:induction false} PathCycles(w: Edges, x: set<nat>, path: seq<nat>)
    requires Closed(w, x) && path != [] && IsPath(w, path) && NoRepeats(path)
    requires forall i | 0 <= i < |path| :: path[i] in x
    ensures Cyclic(w)
    decreases |x| - |path|
  {
    DistinctIn(path, x);
    assert LeadsInto(w, path[|path| - 1], x);
    var q: nat :| q in x && (path[|path| - 1], q) in w;
    var longer := path + [q];
    if i :| 0 <= i < |path| && path[i] == q {
      assert IsCycle(w, longer[i..]);
    } else {
      DistinctIn(longer, x);
      PathCycles(w, x, longer);
    }
  }

  lemma CycleIsClosed(w: Edges, path: seq<nat>)
    requires IsCycle(w, path)
    ensures Closed(w, set i | 0 <= i < |path| :: path[i])
  {
    var x := set i | 0 <= i < |path| :: path[i];
    assert path[0] in x;
    forall p | p in x
      ensures LeadsInto(w, p, x)
    {
      var i :| 0 <= i < |path| && path[i] == p;
      var j := if i < |path| - 1 then i else 0;
      assert path[j + 1] in x && (p, path[j + 1]) in w;
    }
  }

  /** There is a closed set exactly when there is a cycle. */
  lemma ClosedIsCyclic(w: Edges)
    ensures HasClosed(w) <==> Cyclic(w)
  {
    if x: set<nat> :| Closed(w, x) {
      var p :| p in x;
      PathCycles(w, x, [p]);
    }
    if path: seq<nat> :| IsCycle(w, path) {
      CycleIsClosed(w, path);
    }
  }

  lemma NoEdgesNoClosed(w: Edges)
    requires w == {}
    ensures !HasClosed(w)
  {
    forall x: set<nat> | x != {}
      ensures !Closed(w, x)
    {
      var p :| p in x;
      assert !LeadsInto(w, p, x);
    }
  }

  /** No edge goes down, and one that does not go up begins in `moves`. */
  predicate GoesUp(w: Edges, level: nat -> nat, moves: set<nat>) {
    forall e | e in w :: level(e.0) <= level(e.1) && (level(e.0) < level(e.1) || e.0 in moves)
  }

  /** Then a closed set has a closed part in `moves`: its highest. */
  lemma {:induction false} TopIsClosed(w: Edges, x: set<nat>, level: nat -> nat, moves: set<nat>, n: nat)
    returns (y: set<nat>)
    requires Closed(w, x) && GoesUp(w, level, moves) && forall p | p in x :: level(p) <= n
    ensures Closed(w, y) && y <= moves && y <= x
    decreases n
  {
    if top: nat :| top in x && level(top) == n {
      y := set p | p in x && level(p) == n;
      assert top in y;
      forall p | p in y
        ensures p in moves && LeadsInto(w, p, y)
      {
        assert LeadsInto(w, p, x);
        var q :| q in x && (p, q) in w;
        assert q in y;
      }
    } else {
      var p :| p in x;
      assert level(p) < n;
      y := TopIsClosed(w, x, level, moves, n - 1);
    }
  }
}
