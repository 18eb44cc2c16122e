/** Connected groups of obstacle cells, and what it means to delete the small ones. */
module ObstacleGroups {
  import opened Sequences

  datatype Connectivity = Way4 | Way8

  datatype Cell = Cell(row: int, column: int)

  predicate Adjacent(way: Connectivity, a: Cell, b: Cell) {
    && a != b
    && -1 <= a.row - b.row <= 1 && -1 <= a.column - b.column <= 1
    && (way == Way4 ==> a.row == b.row || a.column == b.column)
  }

  // ----- Paths -------------------------------------------------------------------------

  predicate Joins(way: Connectivity, path: seq<Cell>, i: int) {
    0 <= i < |path| - 1 && Adjacent(way, path[i], path[i + 1])
  }

  predicate IsPath(obstacles: set<Cell>, way: Connectivity, path: seq<Cell>) {
    && path != []
    && (forall i :: 0 <= i < |path| ==> path[i] in obstacles)
    && (forall i :: 0 <= i < |path| - 1 ==> Joins(way, path, i))
  }

  predicate Links(obstacles: set<Cell>, way: Connectivity, path: seq<Cell>, a: Cell, b: Cell) {
    IsPath(obstacles, way, path) && path[0] == a && path[|path| - 1] == b
  }

  ghost predicate Connected(obstacles: set<Cell>, way: Connectivity, a: Cell, b: Cell) {
    exists path :: Links(obstacles, way, path, a, b)
  }

  lemma ConnectedSelf(obstacles: set<Cell>, way: Connectivity, a: Cell)
    requires a in obstacles
    ensures Connected(obstacles, way, a, a)
  {
    assert Links(obstacles, way, [a], a, a);
  }

  lemma ConnectedStep(obstacles: set<Cell>, way: Connectivity, a: Cell, b: Cell)
    requires a in obstacles && b in obstacles && Adjacent(way, a, b)
    ensures Connected(obstacles, way, a, b)
  {
    assert Joins(way, [a, b], 0);
    assert Links(obstacles, way, [a, b], a, b);
  }

  lemma ConnectedTransitive(obstacles: set<Cell>, way: Connectivity, a: Cell, b: Cell, c: Cell)
    requires Connected(obstacles, way, a, b) && Connected(obstacles, way, b, c)
    ensures Connected(obstacles, way, a, c)
  {
    var front :| Links(obstacles, way, front, a, b);
    var back :| Links(obstacles, way, back, b, c);
    var path := front + back[1..];
    forall i | 0 <= i < |path| - 1
      ensures Joins(way, path, i)
    {
      if i >= |front| - 1 {
        assert Joins(way, back, i - (|front| - 1));
      } else {
        assert Joins(way, front, i);
      }
    }
    assert Links(obstacles, way, path, a, c);
  }

  lemma ConnectedSymmetric(obstacles: set<Cell>, way: Connectivity, a: Cell, b: Cell)
    requires Connected(obstacles, way, a, b)
    ensures Connected(obstacles, way, b, a)
  {
    var path :| Links(obstacles, way, path, a, b);
    var back := Reversed(path);
    ReversedAt(path, 0);
    forall k | 0 <= k < |path|
      ensures back[k] == path[|path| - 1 - k]
    {
      ReversedAt(path, k);
    }
    forall i | 0 <= i < |back| - 1
      ensures Joins(way, back, i)
    {
      assert Joins(way, path, |path| - 2 - i);
    }
    assert Links(obstacles, way, back, b, a);
  }

  /** Whatever adjacent cells share, connected cells share. */
  lemma ConnectedShare<T>(obstacles: set<Cell>, way: Connectivity, share: map<Cell, T>, a: Cell, b: Cell)
    requires obstacles <= share.Keys
    requires forall p, q :: p in obstacles && q in obstacles && Adjacent(way, p, q) ==> share[p] == share[q]
    requires Connected(obstacles, way, a, b)
    ensures share[a] == share[b]
  {
    var path :| Links(obstacles, way, path, a, b);
    PathShares(obstacles, way, share, path, |path| - 1);
  }

  lemma {:induction false} PathShares<T>(
    obstacles: set<Cell>, way: Connectivity, share: map<Cell, T>, path: seq<Cell>, k: nat)
    requires obstacles <= share.Keys
    requires forall p, q :: p in obstacles && q in obstacles && Adjacent(way, p, q) ==> share[p] == share[q]
    requires IsPath(obstacles, way, path) && k < |path|
    ensures share[path[0]] == share[path[k]]
  {
    if k > 0 {
      PathShares(obstacles, way, share, path, k - 1);
      assert Joins(way, path, k - 1);
    }
  }

  // ----- Groups ------------------------------------------------------------------------

  ghost function Group(obstacles: set<Cell>, way: Connectivity, a: Cell): set<Cell> {
    set b | b in obstacles && Connected(obstacles, way, a, b)
  }

  lemma ConnectedSameGroup(obstacles: set<Cell>, way: Connectivity, a: Cell, b: Cell)
    requires Connected(obstacles, way, a, b)
    ensures Group(obstacles, way, a) == Group(obstacles, way, b)
  {
    ConnectedSymmetric(obstacles, way, a, b);
    forall c | c in obstacles
      ensures Connected(obstacles, way, a, c) <==> Connected(obstacles, way, b, c)
    {
      if Connected(obstacles, way, a, c) {
        ConnectedTransitive(obstacles, way, b, a, c);
      }
      if Connected(obstacles, way, b, c) {
        ConnectedTransitive(obstacles, way, a, b, c);
      }
    }
  }

  ghost predicate HasNeighbour(obstacles: set<Cell>, way: Connectivity, a: Cell) {
    exists b :: b in obstacles && Adjacent(way, a, b)
  }

  lemma LongPathHasNeighbour(obstacles: set<Cell>, way: Connectivity, path: seq<Cell>)
    requires IsPath(obstacles, way, path)
    ensures |path| > 1 ==> HasNeighbour(obstacles, way, path[0])
  {
    if |path| > 1 {
      assert Joins(way, path, 0);
    }
  }

  /** An obstacle cell stands alone exactly when its group has fewer than two cells. */
  lemma AloneIffNoNeighbour(obstacles: set<Cell>, way: Connectivity, a: Cell)
    requires a in obstacles
    ensures |Group(obstacles, way, a)| >= 1
    ensures |Group(obstacles, way, a)| < 2 <==> !HasNeighbour(obstacles, way, a)
  {
    var group := Group(obstacles, way, a);
    ConnectedSelf(obstacles, way, a);
    assert group == {a} + (group - {a});
    if HasNeighbour(obstacles, way, a) {
      var b :| b in obstacles && Adjacent(way, a, b);
      ConnectedStep(obstacles, way, a, b);
      assert b in Group(obstacles, way, a) && b != a;
    } else {
      forall b | b in group
        ensures b == a
      {
        var path :| Links(obstacles, way, path, a, b);
        LongPathHasNeighbour(obstacles, way, path);
      }
      assert group == {a};
    }
  }

  // ----- Deleting small groups ---------------------------------------------------------

  /** The obstacles left when every group smaller than n is deleted. */
  ghost function Kept(obstacles: set<Cell>, way: Connectivity, n: nat): set<Cell> {
    set a | a in obstacles && |Group(obstacles, way, a)| >= n
  }

  lemma {:induction false} PathStays(
    obstacles: set<Cell>, way: Connectivity, n: nat, path: seq<Cell>, k: nat)
    requires IsPath(obstacles, way, path) && path[0] in Kept(obstacles, way, n) && k < |path|
    ensures path[k] in Kept(obstacles, way, n)
  {
    if k > 0 {
      PathStays(obstacles, way, n, path, k - 1);
      assert Joins(way, path, k - 1);
      ConnectedStep(obstacles, way, path[k - 1], path[k]);
      ConnectedSameGroup(obstacles, way, path[k - 1], path[k]);
    }
  }

  /** Groups that are kept are kept whole. */
  lemma KeptGroupsAreWhole(obstacles: set<Cell>, way: Connectivity, n: nat, a: Cell)
    requires a in Kept(obstacles, way, n)
    ensures Group(Kept(obstacles, way, n), way, a) == Group(obstacles, way, a)
  {
    var kept := Kept(obstacles, way, n);
    forall b | Connected(kept, way, a, b)
      ensures Connected(obstacles, way, a, b)
    {
      var path :| Links(kept, way, path, a, b);
      assert Links(obstacles, way, path, a, b);
    }
    forall b | Connected(obstacles, way, a, b)
      ensures Connected(kept, way, a, b)
    {
      var path :| Links(obstacles, way, path, a, b);
      forall k | 0 <= k < |path|
        ensures path[k] in kept
      {
        PathStays(obstacles, way, n, path, k);
      }
      assert Links(kept, way, path, a, b);
    }
    forall b | b in Group(obstacles, way, a)
      ensures b in kept
    {
      ConnectedSameGroup(obstacles, way, a, b);
    }
  }

  /** Deleting in two rounds with growing sizes is deleting once with the larger. */
  lemma DeletingInRounds(obstacles: set<Cell>, way: Connectivity, m: nat, n: nat)
    requires m <= n
    ensures Kept(Kept(obstacles, way, m), way, n) == Kept(obstacles, way, n)
  {
    forall a | a in Kept(obstacles, way, m)
      ensures Group(Kept(obstacles, way, m), way, a) == Group(obstacles, way, a)
    {
      KeptGroupsAreWhole(obstacles, way, m, a);
    }
  }
}
