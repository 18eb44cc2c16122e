/** What holds between provisional labels and connected groups while an image is scanned row by row. */
module LabelScan {
  import opened LabelTrees
  import opened ObstacleGroups

  /** The order in which cells are visited. */
  predicate Before(p: Cell, q: Cell) {
    p.row < q.row || (p.row == q.row && p.column < q.column)
  }

  function Visited(obstacles: set<Cell>, at: Cell): set<Cell> {
    set p | p in obstacles && Before(p, at)
  }

  /** Obstacle cells none of whose neighbours was visited earlier: each of them gets a new label. */
  function Starts(obstacles: set<Cell>, way: Connectivity): set<Cell> {
    set e | e in obstacles && forall p :: p in obstacles && Adjacent(way, p, e) ==> !Before(p, e)
  }

  /** Every visited obstacle has a label, and labels belong to the cell where they were made. */
  ghost predicate Labelled(
    obstacles: set<Cell>, way: Connectivity, done: set<Cell>, labelOf: map<Cell, nat>, trees: seq<nat>, made: seq<Cell>)
  {
    && Forest(trees) && |made| == |trees|
    && done <= obstacles && done <= labelOf.Keys
    && (forall p :: p in done ==> 0 < labelOf[p] < |trees|)
    && (forall l :: 0 < l < |trees| ==> made[l] in done && labelOf[made[l]] == l)
  }

  /**
    Cells with one root are connected: every label's cell is connected to its root's, and every cell to
    its label's.
  */
  ghost predicate Sound(
    obstacles: set<Cell>, way: Connectivity, done: set<Cell>, labelOf: map<Cell, nat>, trees: seq<nat>, made: seq<Cell>)
    requires Labelled(obstacles, way, done, labelOf, trees, made)
  {
    && (forall l :: 0 < l < |trees| ==> Connected(obstacles, way, made[l], made[Root(trees, l)]))
    && (forall p :: p in done ==> Connected(obstacles, way, p, made[labelOf[p]]))
  }

  /** Adjacent visited cells have one root. */
  ghost predicate Complete(
    obstacles: set<Cell>, way: Connectivity, done: set<Cell>, labelOf: map<Cell, nat>, trees: seq<nat>, made: seq<Cell>)
    requires Labelled(obstacles, way, done, labelOf, trees, made)
  {
    forall p, q :: p in done && q in done && Adjacent(way, p, q) ==> Root(trees, labelOf[p]) == Root(trees, labelOf[q])
  }

  ghost predicate Scan(
    obstacles: set<Cell>, way: Connectivity, done: set<Cell>, labelOf: map<Cell, nat>, trees: seq<nat>, made: seq<Cell>)
  {
    && Labelled(obstacles, way, done, labelOf, trees, made)
    && Sound(obstacles, way, done, labelOf, trees, made)
    && Complete(obstacles, way, done, labelOf, trees, made)
  }

  lemma ScanStarts(obstacles: set<Cell>, way: Connectivity, labelOf: map<Cell, nat>, at: Cell)
    ensures Scan(obstacles, way, {}, labelOf, [0], [at])
  {
  }

  lemma RootIsMade(
    obstacles: set<Cell>, way: Connectivity, done: set<Cell>, labelOf: map<Cell, nat>, trees: seq<nat>,
    made: seq<Cell>, p: Cell)
    requires Scan(obstacles, way, done, labelOf, trees, made) && p in done
    ensures Connected(obstacles, way, p, made[Root(trees, labelOf[p])])
  {
    ConnectedTransitive(obstacles, way, p, made[labelOf[p]], made[Root(trees, labelOf[p])]);
  }

  /** A new cell takes the label of an adjacent one, and all its visited neighbours share that label's root. */
  lemma CopyLabel(
    obstacles: set<Cell>, way: Connectivity, done: set<Cell>, labelOf: map<Cell, nat>, trees: seq<nat>, made: seq<Cell>,
    e: Cell, q: Cell)
    requires Scan(obstacles, way, done, labelOf, trees, made)
    requires e in obstacles && e !in done && q in done && Adjacent(way, q, e)
    requires forall p :: p in done && Adjacent(way, p, e) ==> Root(trees, labelOf[p]) == Root(trees, labelOf[q])
    ensures Scan(obstacles, way, done + {e}, labelOf[e := labelOf[q]], trees, made)
  {
    var next := labelOf[e := labelOf[q]];
    ConnectedStep(obstacles, way, e, q);
    ConnectedTransitive(obstacles, way, e, q, made[labelOf[q]]);
    forall p, r | p in done + {e} && r in done + {e} && Adjacent(way, p, r)
      ensures Root(trees, next[p]) == Root(trees, next[r])
    {
      assert r == e ==> p in done && Adjacent(way, p, e);
      assert p == e ==> r in done && Adjacent(way, r, e);
    }
  }

  /** A new cell gets a new label when none of its neighbours was visited. */
  lemma NewLabel(
    obstacles: set<Cell>, way: Connectivity, done: set<Cell>, labelOf: map<Cell, nat>, trees: seq<nat>,
    made: seq<Cell>, e: Cell)
    requires Scan(obstacles, way, done, labelOf, trees, made)
    requires e in obstacles && e !in done
    requires forall p :: p in done ==> !Adjacent(way, p, e)
    ensures Scan(obstacles, way, done + {e}, labelOf[e := |trees|], trees + [|trees|], made + [e])
  {
    var next, trees', made' := labelOf[e := |trees|], trees + [|trees|], made + [e];
    assert Forest(trees');
    forall l: nat | l < |trees|
      ensures Root(trees', l) == Root(trees, l)
    {
      PrefixRoots(trees', |trees|, l);
      assert trees'[..|trees|] == trees;
    }
    ConnectedSelf(obstacles, way, e);
    forall p, r | p in done + {e} && r in done + {e} && Adjacent(way, p, r)
      ensures Root(trees', next[p]) == Root(trees', next[r])
    {
      assert p != e && r != e by {
        assert Adjacent(way, r, p);
      }
    }
  }

  /** Two trees joined because the new cell touches both. */
  lemma JoinLabels(
    obstacles: set<Cell>, way: Connectivity, done: set<Cell>, labelOf: map<Cell, nat>, trees: seq<nat>, made: seq<Cell>,
    e: Cell, q: Cell, r: Cell, trees': seq<nat>, root: nat)
    requires Scan(obstacles, way, done, labelOf, trees, made)
    requires e in obstacles && e !in done && q in done && r in done && Adjacent(way, q, e) && Adjacent(way, r, e)
    requires root == Root(trees, labelOf[q]) || root == Root(trees, labelOf[r])
    requires Joined(trees, trees', labelOf[q], labelOf[r], root)
    requires forall p :: p in done && Adjacent(way, p, e) ==>
      Root(trees, labelOf[p]) == Root(trees, labelOf[q]) || Root(trees, labelOf[p]) == Root(trees, labelOf[r])
    ensures Scan(obstacles, way, done + {e}, labelOf[e := root], trees', made)
  {
    JoinIsSound(obstacles, way, done, labelOf, trees, made, e, q, r, trees', root);
    RootsOfJoined(trees, trees', labelOf[q], labelOf[r], root);
    JoinIsComplete(obstacles, way, done, labelOf, trees, made, e, q, r, trees', root);
  }

  lemma JoinIsSound(
    obstacles: set<Cell>, way: Connectivity, done: set<Cell>, labelOf: map<Cell, nat>, trees: seq<nat>, made: seq<Cell>,
    e: Cell, q: Cell, r: Cell, trees': seq<nat>, root: nat)
    requires Scan(obstacles, way, done, labelOf, trees, made)
    requires e in obstacles && e !in done && q in done && r in done && Adjacent(way, q, e) && Adjacent(way, r, e)
    requires root == Root(trees, labelOf[q]) || root == Root(trees, labelOf[r])
    requires Joined(trees, trees', labelOf[q], labelOf[r], root)
    ensures Labelled(obstacles, way, done + {e}, labelOf[e := root], trees', made)
    ensures Sound(obstacles, way, done + {e}, labelOf[e := root], trees', made)
  {
    var rootQ, rootR := Root(trees, labelOf[q]), Root(trees, labelOf[r]);
    ToEitherRoot(obstacles, way, done, labelOf, trees, made, e, q, r);
    forall l | 0 < l < |trees|
      ensures Connected(obstacles, way, made[l], made[Root(trees', l)])
    {
      if Root(trees, l) == rootQ || Root(trees, l) == rootR {
        ConnectedTransitive(obstacles, way, made[l], made[Root(trees, l)], e);
        ConnectedTransitive(obstacles, way, made[l], e, made[root]);
      }
    }
  }

  lemma JoinIsComplete(
    obstacles: set<Cell>, way: Connectivity, done: set<Cell>, labelOf: map<Cell, nat>, trees: seq<nat>, made: seq<Cell>,
    e: Cell, q: Cell, r: Cell, trees': seq<nat>, root: nat)
    requires Scan(obstacles, way, done, labelOf, trees, made)
    requires e in obstacles && e !in done && q in done && r in done
    requires Joined(trees, trees', labelOf[q], labelOf[r], root)
    requires 0 < root < |trees| && Root(trees', root) == root
    requires Labelled(obstacles, way, done + {e}, labelOf[e := root], trees', made)
    requires forall p :: p in done && Adjacent(way, p, e) ==>
      Root(trees, labelOf[p]) == Root(trees, labelOf[q]) || Root(trees, labelOf[p]) == Root(trees, labelOf[r])
    ensures Complete(obstacles, way, done + {e}, labelOf[e := root], trees', made)
  {
    var next := labelOf[e := root];
    forall p | p in done && Adjacent(way, p, e)
      ensures Root(trees', labelOf[p]) == root
    {
    }
    forall p, s | p in done + {e} && s in done + {e} && Adjacent(way, p, s)
      ensures Root(trees', next[p]) == Root(trees', next[s])
    {
      if s == e {
        assert p in done && Adjacent(way, p, e);
      } else if p == e {
        assert s in done && Adjacent(way, s, e);
      } else {
        assert Root(trees, labelOf[p]) == Root(trees, labelOf[s]);
      }
    }
  }

  lemma ToEitherRoot(
    obstacles: set<Cell>, way: Connectivity, done: set<Cell>, labelOf: map<Cell, nat>, trees: seq<nat>, made: seq<Cell>,
    e: Cell, q: Cell, r: Cell)
    requires Scan(obstacles, way, done, labelOf, trees, made)
    requires e in obstacles && q in done && r in done && Adjacent(way, q, e) && Adjacent(way, r, e)
    ensures Connected(obstacles, way, e, made[Root(trees, labelOf[q])])
    ensures Connected(obstacles, way, made[Root(trees, labelOf[q])], e)
    ensures Connected(obstacles, way, e, made[Root(trees, labelOf[r])])
    ensures Connected(obstacles, way, made[Root(trees, labelOf[r])], e)
  {
    ConnectedStep(obstacles, way, e, q);
    ConnectedStep(obstacles, way, e, r);
    RootIsMade(obstacles, way, done, labelOf, trees, made, q);
    RootIsMade(obstacles, way, done, labelOf, trees, made, r);
    ConnectedTransitive(obstacles, way, e, q, made[Root(trees, labelOf[q])]);
    ConnectedTransitive(obstacles, way, e, r, made[Root(trees, labelOf[r])]);
    ConnectedSymmetric(obstacles, way, e, made[Root(trees, labelOf[q])]);
    ConnectedSymmetric(obstacles, way, e, made[Root(trees, labelOf[r])]);
  }

  lemma RootsOfJoined(trees: seq<nat>, trees': seq<nat>, i: nat, j: nat, root: nat)
    requires Forest(trees) && 0 < i < |trees| && 0 < j < |trees| && Joined(trees, trees', i, j, root)
    requires root == Root(trees, i) || root == Root(trees, j)
    ensures Root(trees', root) == root && Root(trees', i) == root && Root(trees', j) == root
  {
  }

  /** When the whole image has been scanned, one root means one group. */
  lemma RootsAreGroups(
    obstacles: set<Cell>, way: Connectivity, labelOf: map<Cell, nat>, trees: seq<nat>, made: seq<Cell>, p: Cell,
    q: Cell)
    requires Scan(obstacles, way, obstacles, labelOf, trees, made) && p in obstacles && q in obstacles
    ensures Root(trees, labelOf[p]) == Root(trees, labelOf[q]) <==> Connected(obstacles, way, p, q)
  {
    if Root(trees, labelOf[p]) == Root(trees, labelOf[q]) {
      RootIsMade(obstacles, way, obstacles, labelOf, trees, made, p);
      RootIsMade(obstacles, way, obstacles, labelOf, trees, made, q);
      ConnectedSymmetric(obstacles, way, q, made[Root(trees, labelOf[q])]);
      ConnectedTransitive(obstacles, way, p, made[Root(trees, labelOf[p])], q);
    }
    if Connected(obstacles, way, p, q) {
      var roots := map s | s in obstacles :: Root(trees, labelOf[s]);
      ConnectedShare(obstacles, way, roots, p, q);
    }
  }
}
