/** One step of the scan: which earlier neighbours decide a cell's label. */
module ScanSteps {
  import opened LabelScan
  import opened LabelTrees
  import opened ObstacleGroups

  /** The four earlier neighbours of a cell, named as in the scan mask a b c / d e. */
  function A(e: Cell): Cell { Cell(e.row - 1, e.column - 1) }

  function B(e: Cell): Cell { Cell(e.row - 1, e.column) }

  function C(e: Cell): Cell { Cell(e.row - 1, e.column + 1) }

  function D(e: Cell): Cell { Cell(e.row, e.column - 1) }

  /** None of the neighbours in the scan mask is an obstacle. */
  predicate NothingBefore(obstacles: set<Cell>, way: Connectivity, e: Cell) {
    B(e) !in obstacles && D(e) !in obstacles && (way == Way8 ==> A(e) !in obstacles && C(e) !in obstacles)
  }

  predicate Touches(way: Connectivity, p: Cell, q: Cell) {
    p == q || Adjacent(way, p, q)
  }

  /** Every earlier obstacle neighbour of e touches q or r. */
  ghost predicate Covered(obstacles: set<Cell>, way: Connectivity, e: Cell, q: Cell, r: Cell) {
    forall p :: p in Visited(obstacles, e) && Adjacent(way, p, e) ==> Touches(way, p, q) || Touches(way, p, r)
  }

  lemma EarlierNeighbours(way: Connectivity, e: Cell, p: Cell)
    ensures Adjacent(way, p, e) && Before(p, e)
       <==> p == B(e) || p == D(e) || (way == Way8 && (p == A(e) || p == C(e)))
  {
  }

  /** The decision tree for 8 neighbours. */
  lemma Mask8(obstacles: set<Cell>, e: Cell)
    ensures B(e) in obstacles ==> Covered(obstacles, Way8, e, B(e), B(e))
    ensures B(e) !in obstacles && C(e) in obstacles && A(e) in obstacles ==> Covered(obstacles, Way8, e, C(e), A(e))
    ensures B(e) !in obstacles && C(e) in obstacles && A(e) !in obstacles && D(e) in obstacles
        ==> Covered(obstacles, Way8, e, C(e), D(e))
    ensures B(e) !in obstacles && A(e) !in obstacles && D(e) !in obstacles ==> Covered(obstacles, Way8, e, C(e), C(e))
    ensures B(e) !in obstacles && C(e) !in obstacles ==> Covered(obstacles, Way8, e, A(e), A(e)) || A(e) !in obstacles
    ensures B(e) !in obstacles && C(e) !in obstacles && A(e) !in obstacles ==> Covered(obstacles, Way8, e, D(e), D(e))
    ensures e in obstacles && B(e) !in obstacles && C(e) !in obstacles && A(e) !in obstacles && D(e) !in obstacles
       ==> e in Starts(obstacles, Way8)
    ensures B(e) in obstacles || C(e) in obstacles || A(e) in obstacles || D(e) in obstacles ==>
      e !in Starts(obstacles, Way8)
  {
    forall p
      ensures Adjacent(Way8, p, e) && Before(p, e) <==> p == B(e) || p == D(e) || p == A(e) || p == C(e)
    {
      EarlierNeighbours(Way8, e, p);
    }
  }

  lemma Mask4(obstacles: set<Cell>, e: Cell)
    ensures Covered(obstacles, Way4, e, D(e), B(e))
    ensures D(e) !in obstacles ==> Covered(obstacles, Way4, e, B(e), B(e))
    ensures B(e) !in obstacles ==> Covered(obstacles, Way4, e, D(e), D(e))
    ensures e in obstacles && B(e) !in obstacles && D(e) !in obstacles ==> e in Starts(obstacles, Way4)
    ensures B(e) in obstacles || D(e) in obstacles ==> e !in Starts(obstacles, Way4)
  {
    forall p
      ensures Adjacent(Way4, p, e) && Before(p, e) <==> p == B(e) || p == D(e)
    {
      EarlierNeighbours(Way4, e, p);
    }
  }

  /** The scan has reached e: the obstacles before it are labelled, the free cells before it have label 0. */
  ghost predicate ScanAt(
    obstacles: set<Cell>, way: Connectivity, labelOf: map<Cell, nat>, trees: seq<nat>, made: seq<Cell>, e: Cell)
  {
    && Scan(obstacles, way, Visited(obstacles, e), labelOf, trees, made)
    && FreeAreZero(obstacles, labelOf, e)
  }

  /** After the pass e has the label current; a label was made just when e starts a group. */
  ghost predicate Passed(
    obstacles: set<Cell>, way: Connectivity, labelOf: map<Cell, nat>, before: nat, trees: seq<nat>, made: seq<Cell>,
    e: Cell, current: nat)
  {
    && Scan(obstacles, way, Visited(obstacles, e) + (if e in obstacles then {e} else {}),
            labelOf[e := current], trees, made)
    && |trees| == before + (if e in Starts(obstacles, way) then 1 else 0)
    && (e !in obstacles ==> current == 0)
  }

  /** All that a pass needs to read labels: before e, a cell's label is in use if it is an obstacle and 0 otherwise. */
  ghost predicate Readable(obstacles: set<Cell>, labelOf: map<Cell, nat>, count: nat, e: Cell) {
    forall p :: p in labelOf && Before(p, e) ==> if p in obstacles then 0 < labelOf[p] < count else labelOf[p] == 0
  }

  lemma ScanIsReadable(
    obstacles: set<Cell>, way: Connectivity, labelOf: map<Cell, nat>, trees: seq<nat>, made: seq<Cell>, e: Cell)
    requires ScanAt(obstacles, way, labelOf, trees, made, e)
    ensures Readable(obstacles, labelOf, |trees|, e)
    ensures forall p :: p in obstacles && Before(p, e) ==> p in labelOf
  {
  }

  lemma CopyPass(
    obstacles: set<Cell>, way: Connectivity, labelOf: map<Cell, nat>, trees: seq<nat>, made: seq<Cell>, e: Cell,
    q: Cell)
    requires ScanAt(obstacles, way, labelOf, trees, made, e)
    requires e in obstacles && q in obstacles && Before(q, e) && Adjacent(way, q, e) && Covered(obstacles, way, e, q, q)
    ensures q in labelOf && Passed(obstacles, way, labelOf, |trees|, trees, made, e, labelOf[q])
  {
    CopyLabel(obstacles, way, Visited(obstacles, e), labelOf, trees, made, e, q);
  }

  /** Earlier neighbours of e have the root of one of two cells that cover them. */
  lemma CoveredRoots(
    obstacles: set<Cell>, way: Connectivity, done: set<Cell>, labelOf: map<Cell, nat>, trees: seq<nat>, made: seq<Cell>,
    e: Cell, q: Cell, r: Cell, p: Cell)
    requires Scan(obstacles, way, done, labelOf, trees, made) && done == Visited(obstacles, e)
    requires q in done && r in done && Covered(obstacles, way, e, q, r)
    requires p in done && Adjacent(way, p, e)
    ensures Root(trees, labelOf[p]) == Root(trees, labelOf[q]) || Root(trees, labelOf[p]) == Root(trees, labelOf[r])
  {
  }

  lemma JoinPass(
    obstacles: set<Cell>, way: Connectivity, labelOf: map<Cell, nat>, trees: seq<nat>, made: seq<Cell>, e: Cell,
    q: Cell, r: Cell,
    trees': seq<nat>, root: nat)
    requires ScanAt(obstacles, way, labelOf, trees, made, e)
    requires e in obstacles && q in obstacles && Before(q, e) && Adjacent(way, q, e)
    requires r in obstacles && Before(r, e) && Adjacent(way, r, e) && Covered(obstacles, way, e, q, r)
    requires root == Root(trees, labelOf[q]) || root == Root(trees, labelOf[r])
    requires Joined(trees, trees', labelOf[q], labelOf[r], root)
    ensures Passed(obstacles, way, labelOf, |trees|, trees', made, e, root)
  {
    var done := Visited(obstacles, e);
    forall p | p in done && Adjacent(way, p, e)
      ensures Root(trees, labelOf[p]) == Root(trees, labelOf[q]) || Root(trees, labelOf[p]) == Root(trees, labelOf[r])
    {
      CoveredRoots(obstacles, way, done, labelOf, trees, made, e, q, r, p);
    }
    JoinLabels(obstacles, way, done, labelOf, trees, made, e, q, r, trees', root);
  }

  lemma NewPass(
    obstacles: set<Cell>, way: Connectivity, labelOf: map<Cell, nat>, trees: seq<nat>, made: seq<Cell>, e: Cell)
    requires ScanAt(obstacles, way, labelOf, trees, made, e) && e in Starts(obstacles, way)
    ensures Passed(obstacles, way, labelOf, |trees|, trees + [|trees|], made + [e], e, |trees|)
  {
    NewLabel(obstacles, way, Visited(obstacles, e), labelOf, trees, made, e);
  }

  ghost predicate Copied(labelOf: map<Cell, nat>, before: seq<nat>, q: Cell, trees: seq<nat>, current: nat) {
    q in labelOf && current == labelOf[q] && trees == before
  }

  ghost predicate United(labelOf: map<Cell, nat>, before: seq<nat>, q: Cell, r: Cell, trees: seq<nat>, current: nat) {
    && Forest(before) && q in labelOf && r in labelOf && 0 < labelOf[q] < |before| && 0 < labelOf[r] < |before|
    && (current == Root(before, labelOf[q]) || current == Root(before, labelOf[r]))
    && Joined(before, trees, labelOf[q], labelOf[r], current)
  }

  ghost predicate Created(before: seq<nat>, trees: seq<nat>, current: nat) {
    current == |before| && trees == before + [|before|]
  }

  /** What the 8-neighbour decision tree does with an obstacle cell. */
  ghost predicate Decided8(
    obstacles: set<Cell>, labelOf: map<Cell, nat>, before: seq<nat>, e: Cell, trees: seq<nat>, current: nat)
  {
    if B(e) in obstacles then Copied(labelOf, before, B(e), trees, current)
    else if C(e) in obstacles then
      if A(e) in obstacles then United(labelOf, before, C(e), A(e), trees, current)
      else if D(e) in obstacles then United(labelOf, before, C(e), D(e), trees, current)
      else Copied(labelOf, before, C(e), trees, current)
    else if A(e) in obstacles then Copied(labelOf, before, A(e), trees, current)
    else if D(e) in obstacles then Copied(labelOf, before, D(e), trees, current)
    else Created(before, trees, current)
  }

  /** What the 4-neighbour decision tree does with an obstacle cell. */
  ghost predicate Decided4(
    obstacles: set<Cell>, labelOf: map<Cell, nat>, before: seq<nat>, e: Cell, trees: seq<nat>, current: nat)
  {
    if B(e) in obstacles then
      if D(e) in obstacles then United(labelOf, before, D(e), B(e), trees, current)
      else Copied(labelOf, before, B(e), trees, current)
    else if D(e) in obstacles then Copied(labelOf, before, D(e), trees, current)
    else Created(before, trees, current)
  }

  function MadeAfter(obstacles: set<Cell>, way: Connectivity, made: seq<Cell>, e: Cell): seq<Cell> {
    if e in Starts(obstacles, way) then made + [e] else made
  }

  /** The decision tree for 8 neighbours keeps labels and groups in step. */
  lemma Decided8Passes(
    obstacles: set<Cell>, labelOf: map<Cell, nat>, before: seq<nat>, made: seq<Cell>, e: Cell, trees: seq<nat>,
    current: nat)
    requires ScanAt(obstacles, Way8, labelOf, before, made, e) && e in obstacles
    requires Decided8(obstacles, labelOf, before, e, trees, current)
    ensures Passed(obstacles, Way8, labelOf, |before|, trees, MadeAfter(obstacles, Way8, made, e), e, current)
  {
    Mask8(obstacles, e);
    if B(e) in obstacles {
      CopyPass(obstacles, Way8, labelOf, before, made, e, B(e));
    } else if C(e) in obstacles {
      if A(e) in obstacles {
        JoinPass(obstacles, Way8, labelOf, before, made, e, C(e), A(e), trees, current);
      } else if D(e) in obstacles {
        JoinPass(obstacles, Way8, labelOf, before, made, e, C(e), D(e), trees, current);
      } else {
        CopyPass(obstacles, Way8, labelOf, before, made, e, C(e));
      }
    } else if A(e) in obstacles {
      CopyPass(obstacles, Way8, labelOf, before, made, e, A(e));
    } else if D(e) in obstacles {
      CopyPass(obstacles, Way8, labelOf, before, made, e, D(e));
    } else {
      NewPass(obstacles, Way8, labelOf, before, made, e);
    }
  }

  lemma FreePasses(
    obstacles: set<Cell>, way: Connectivity, labelOf: map<Cell, nat>, trees: seq<nat>, made: seq<Cell>, e: Cell)
    requires ScanAt(obstacles, way, labelOf, trees, made, e) && e !in obstacles
    ensures Passed(obstacles, way, labelOf, |trees|, trees, MadeAfter(obstacles, way, made, e), e, 0)
  {
  }

  /** So does the one for 4. */
  lemma Decided4Passes(
    obstacles: set<Cell>, labelOf: map<Cell, nat>, before: seq<nat>, made: seq<Cell>, e: Cell, trees: seq<nat>,
    current: nat)
    requires ScanAt(obstacles, Way4, labelOf, before, made, e) && e in obstacles
    requires Decided4(obstacles, labelOf, before, e, trees, current)
    ensures Passed(obstacles, Way4, labelOf, |before|, trees, MadeAfter(obstacles, Way4, made, e), e, current)
  {
    Mask4(obstacles, e);
    if B(e) in obstacles {
      if D(e) in obstacles {
        JoinPass(obstacles, Way4, labelOf, before, made, e, D(e), B(e), trees, current);
      } else {
        CopyPass(obstacles, Way4, labelOf, before, made, e, B(e));
      }
    } else if D(e) in obstacles {
      CopyPass(obstacles, Way4, labelOf, before, made, e, D(e));
    } else {
      NewPass(obstacles, Way4, labelOf, before, made, e);
    }
  }

  // ----- Walking over the image --------------------------------------------------------

  predicate InRectangle(cells: set<Cell>, rows: nat, columns: nat) {
    forall p :: p in cells ==> 0 <= p.row < rows && 0 <= p.column < columns
  }

  lemma VisitedNext(cells: set<Cell>, e: Cell)
    ensures Visited(cells, Cell(e.row, e.column + 1)) == Visited(cells, e) + (if e in cells then {e} else {})
    ensures |Visited(cells, Cell(e.row, e.column + 1))| == |Visited(cells, e)| + (if e in cells then 1 else 0)
  {
    assert Visited(cells, Cell(e.row, e.column + 1)) == Visited(cells, e) + (if e in cells then {e} else {});
  }

  lemma VisitedNextRow(cells: set<Cell>, rows: nat, columns: nat, row: int)
    requires InRectangle(cells, rows, columns)
    ensures Visited(cells, Cell(row + 1, 0)) == Visited(cells, Cell(row, columns))
  {
  }

  lemma VisitedAll(cells: set<Cell>, rows: nat, columns: nat)
    requires InRectangle(cells, rows, columns)
    ensures Visited(cells, Cell(rows, 0)) == cells && Visited(cells, Cell(0, 0)) == {}
  {
  }

  /** The labels made so far are those of the starts visited so far. */
  ghost predicate CountsStarts(obstacles: set<Cell>, way: Connectivity, trees: seq<nat>, e: Cell) {
    |trees| == 1 + |Visited(Starts(obstacles, way), e)|
  }

  /** After the entry for the background come the starts visited so far, one for each label. */
  ghost predicate MadeAre(starts: set<Cell>, made: seq<Cell>) {
    made != [] && (set p | p in made[1..]) == starts
  }

  ghost predicate Tracked(
    obstacles: set<Cell>, way: Connectivity, labelOf: map<Cell, nat>, trees: seq<nat>, made: seq<Cell>, e: Cell)
  {
    ScanAt(obstacles, way, labelOf, trees, made, e) && MadeAre(Visited(Starts(obstacles, way), e), made)
  }

  /** The scan has reached e, and has made as many labels as it should. */
  ghost predicate Reached(obstacles: set<Cell>, way: Connectivity, labelOf: map<Cell, nat>, trees: seq<nat>, e: Cell) {
    CountsStarts(obstacles, way, trees, e) && exists made :: Tracked(obstacles, way, labelOf, trees, made, e)
  }

  lemma MadeGrows(obstacles: set<Cell>, way: Connectivity, made: seq<Cell>, e: Cell)
    requires MadeAre(Visited(Starts(obstacles, way), e), made)
    ensures MadeAre(Visited(Starts(obstacles, way), Right(e)), MadeAfter(obstacles, way, made, e))
  {
    VisitedNext(Starts(obstacles, way), e);
    MadeMore(Visited(Starts(obstacles, way), e), made, e);
  }

  lemma MadeMore(starts: set<Cell>, made: seq<Cell>, e: Cell)
    requires MadeAre(starts, made)
    ensures MadeAre(starts + {e}, made + [e])
  {
    assert (made + [e])[1..] == made[1..] + [e];
  }

  function Right(e: Cell): Cell {
    Cell(e.row, e.column + 1)
  }

  lemma NextScan(
    obstacles: set<Cell>, way: Connectivity, labelOf: map<Cell, nat>, count: nat, trees: seq<nat>, made: seq<Cell>,
    e: Cell, current: nat)
    requires FreeAreZero(obstacles, labelOf, e)
    requires Passed(obstacles, way, labelOf, count, trees, made, e, current)
    ensures ScanAt(obstacles, way, labelOf[e := current], trees, made, Right(e))
  {
    var next := Right(e);
    VisitedNext(obstacles, e);
    assert Visited(obstacles, next) == Visited(obstacles, e) + (if e in obstacles then {e} else {});
    FreeCellsStayZero(obstacles, labelOf, e, current);
  }

  lemma NextPixel(
    obstacles: set<Cell>, way: Connectivity, labelOf: map<Cell, nat>, before: seq<nat>, trees: seq<nat>,
    earlier: seq<Cell>, made: seq<Cell>,
    e: Cell, current: nat)
    requires Tracked(obstacles, way, labelOf, before, earlier, e) && CountsStarts(obstacles, way, before, e)
    requires made == MadeAfter(obstacles, way, earlier, e)
    requires Passed(obstacles, way, labelOf, |before|, trees, made, e, current)
    ensures Reached(obstacles, way, labelOf[e := current], trees, Right(e))
  {
    NextScan(obstacles, way, labelOf, |before|, trees, made, e, current);
    VisitedNext(Starts(obstacles, way), e);
    MadeGrows(obstacles, way, earlier, e);
    assert Tracked(obstacles, way, labelOf[e := current], trees, made, Right(e));
  }

  /** Free cells before e have label 0. */
  ghost predicate FreeAreZero(obstacles: set<Cell>, labelOf: map<Cell, nat>, e: Cell) {
    forall p :: p in labelOf && p !in obstacles && Before(p, e) ==> labelOf[p] == 0
  }

  lemma FreeCellsStayZero(obstacles: set<Cell>, labelOf: map<Cell, nat>, e: Cell, current: nat)
    requires FreeAreZero(obstacles, labelOf, e) && (e !in obstacles ==> current == 0)
    ensures FreeAreZero(obstacles, labelOf[e := current], Cell(e.row, e.column + 1))
  {
  }

  lemma ReachedIsReadable(obstacles: set<Cell>, way: Connectivity, labelOf: map<Cell, nat>, trees: seq<nat>, e: Cell)
    requires Reached(obstacles, way, labelOf, trees, e)
    ensures Readable(obstacles, labelOf, |trees|, e)
    ensures forall p :: p in obstacles && Before(p, e) ==> p in labelOf
  {
    var made :| Tracked(obstacles, way, labelOf, trees, made, e);
    ScanIsReadable(obstacles, way, labelOf, trees, made, e);
  }

  /** One step of the scan, whatever the pixel. */
  ghost predicate Decided(
    obstacles: set<Cell>, way: Connectivity, labelOf: map<Cell, nat>, before: seq<nat>, e: Cell, trees: seq<nat>,
    current: nat)
  {
    if e !in obstacles then current == 0 && trees == before
    else if way == Way8 then Decided8(obstacles, labelOf, before, e, trees, current)
    else Decided4(obstacles, labelOf, before, e, trees, current)
  }

  /** Each step takes the scan one pixel further. */
  lemma DecidedGoesOn(
    obstacles: set<Cell>, way: Connectivity, labelOf: map<Cell, nat>, before: seq<nat>, e: Cell, trees: seq<nat>,
    current: nat)
    requires Reached(obstacles, way, labelOf, before, e)
    requires Decided(obstacles, way, labelOf, before, e, trees, current)
    ensures Reached(obstacles, way, labelOf[e := current], trees, Right(e))
  {
    var made :| Tracked(obstacles, way, labelOf, before, made, e);
    if e !in obstacles {
      FreePasses(obstacles, way, labelOf, before, made, e);
    } else if way == Way8 {
      Decided8Passes(obstacles, labelOf, before, made, e, trees, current);
    } else {
      Decided4Passes(obstacles, labelOf, before, made, e, trees, current);
    }
    NextPixel(obstacles, way, labelOf, before, trees, made, MadeAfter(obstacles, way, made, e), e, current);
  }

  /** Running out of labels means that more groups start in the image than there are labels. */
  lemma MoreStarts(obstacles: set<Cell>, way: Connectivity, trees: seq<nat>, e: Cell)
    requires CountsStarts(obstacles, way, trees, e) && e in obstacles
    requires NothingBefore(obstacles, way, e)
    ensures |Starts(obstacles, way)| >= |trees|
  {
    if way == Way8 {
      Mask8(obstacles, e);
    } else {
      Mask4(obstacles, e);
    }
    var starts := Starts(obstacles, way);
    var rest := starts - Visited(starts, e);
    assert starts == Visited(starts, e) + rest;
    assert e in rest;
  }

  lemma NextRow(
    obstacles: set<Cell>, way: Connectivity, labelOf: map<Cell, nat>, trees: seq<nat>, rows: nat, columns: nat,
    row: int)
    requires InRectangle(obstacles, rows, columns) && InRectangle(labelOf.Keys, rows, columns)
    requires Reached(obstacles, way, labelOf, trees, Cell(row, columns))
    ensures Reached(obstacles, way, labelOf, trees, Cell(row + 1, 0))
  {
    var made :| Tracked(obstacles, way, labelOf, trees, made, Cell(row, columns));
    VisitedNextRow(obstacles, rows, columns, row);
    VisitedNextRow(Starts(obstacles, way), rows, columns, row);
    assert Tracked(obstacles, way, labelOf, trees, made, Cell(row + 1, 0));
  }

  lemma FirstPixel(obstacles: set<Cell>, way: Connectivity, labelOf: map<Cell, nat>, rows: nat, columns: nat)
    requires InRectangle(obstacles, rows, columns) && InRectangle(labelOf.Keys, rows, columns)
    ensures Reached(obstacles, way, labelOf, [0], Cell(0, 0))
  {
    VisitedAll(obstacles, rows, columns);
    VisitedAll(Starts(obstacles, way), rows, columns);
    ScanStarts(obstacles, way, labelOf, Cell(0, 0));
    assert Tracked(obstacles, way, labelOf, [0], [Cell(0, 0)], Cell(0, 0));
  }

  ghost predicate HasLabel(obstacles: set<Cell>, labelOf: map<Cell, nat>, v: nat) {
    exists p :: p in obstacles && p in labelOf && labelOf[p] == v
  }

  /** A labelling of the groups: 0 for free cells, one number of 1, ..., count - 1 for each group. */
  ghost predicate IsLabelling(obstacles: set<Cell>, way: Connectivity, labelOf: map<Cell, nat>, count: nat) {
    && obstacles <= labelOf.Keys
    && (forall p :: p in labelOf ==> labelOf[p] < count && (labelOf[p] == 0 <==> p !in obstacles))
    && (forall p, q :: p in obstacles && q in obstacles ==>
          (labelOf[p] == labelOf[q] <==> Connected(obstacles, way, p, q)))
    && (forall v :: 0 < v < count ==> HasLabel(obstacles, labelOf, v))
  }

  function Renumbered(labelOf: map<Cell, nat>, table: seq<nat>): map<Cell, nat>
    requires forall p :: p in labelOf ==> labelOf[p] < |table|
  {
    map p | p in labelOf :: table[labelOf[p]]
  }

  /** After the scan the table turns provisional labels into a labelling of the groups. */
  lemma ScanLabelsGroups(
    obstacles: set<Cell>, way: Connectivity, labelOf: map<Cell, nat>, trees: seq<nat>, table: seq<nat>, count: nat,
    rows: nat, columns: nat)
    requires InRectangle(obstacles, rows, columns) && InRectangle(labelOf.Keys, rows, columns)
    requires Reached(obstacles, way, labelOf, trees, Cell(rows, 0))
    requires Numbers(trees, table, count)
    ensures forall p :: p in labelOf ==> labelOf[p] < |table|
    ensures IsLabelling(obstacles, way, Renumbered(labelOf, table), count)
  {
    var made :| Tracked(obstacles, way, labelOf, trees, made, Cell(rows, 0));
    VisitedAll(obstacles, rows, columns);
    assert Root(trees, 0) == 0;
    var final := Renumbered(labelOf, table);
    forall p, q | p in obstacles && q in obstacles
      ensures final[p] == final[q] <==> Connected(obstacles, way, p, q)
    {
      RootsAreGroups(obstacles, way, labelOf, trees, made, p, q);
    }
    forall v | 0 < v < count
      ensures HasLabel(obstacles, final, v)
    {
      assert Used(table, v);
      var l :| 0 < l < |table| && table[l] == v;
      assert made[l] in obstacles && final[made[l]] == v;
    }
  }

  // ----- Reading the cut table ---------------------------------------------------------

  /** No group has two cells at which a label was made. */
  ghost predicate StartsApart(obstacles: set<Cell>, way: Connectivity) {
    forall p, q :: p in Starts(obstacles, way) && q in Starts(obstacles, way) && p != q ==>
      !Connected(obstacles, way, p, q)
  }

  predicate NeverJoined(trees: seq<nat>) {
    forall i :: 0 <= i < |trees| ==> trees[i] == i
  }

  lemma PlaceOf(made: seq<Cell>, p: Cell) returns (i: nat)
    requires made != [] && p in made[1..]
    ensures 0 < i < |made| && made[i] == p
  {
    i :| 0 < i < |made| && made[i] == p;
  }

  /** Labels were joined exactly when two of them were made in one group. */
  lemma JoinedWhenConnected(
    obstacles: set<Cell>, way: Connectivity, labelOf: map<Cell, nat>, trees: seq<nat>, made: seq<Cell>)
    requires Scan(obstacles, way, obstacles, labelOf, trees, made) && MadeAre(Starts(obstacles, way), made)
    ensures NeverJoined(trees) <==> StartsApart(obstacles, way)
  {
    if NeverJoined(trees) {
      forall p, q | p in Starts(obstacles, way) && q in Starts(obstacles, way) && p != q
        ensures !Connected(obstacles, way, p, q)
      {
        var i := PlaceOf(made, p);
        var j := PlaceOf(made, q);
        RootsAreGroups(obstacles, way, labelOf, trees, made, p, q);
      }
    } else {
      var i :| 0 <= i < |trees| && trees[i] != i;
      var r := Root(trees, i);
      assert made[i] in made[1..] && made[r] in made[1..];
      RootsAreGroups(obstacles, way, labelOf, trees, made, made[i], made[r]);
    }
  }

  /**
    The number table is cut to count entries before it is read. All reads stay inside the cut table exactly
    when no two cells that start a label are connected; otherwise some cell's label lies beyond its end.
  */
  lemma TableReadsFit(
    obstacles: set<Cell>, way: Connectivity, labelOf: map<Cell, nat>, trees: seq<nat>, table: seq<nat>, count: nat,
    rows: nat, columns: nat)
    requires InRectangle(obstacles, rows, columns) && InRectangle(labelOf.Keys, rows, columns)
    requires Reached(obstacles, way, labelOf, trees, Cell(rows, 0)) && Numbers(trees, table, count)
    ensures (forall p :: p in labelOf ==> labelOf[p] < count) <==> StartsApart(obstacles, way)
  {
    var made :| Tracked(obstacles, way, labelOf, trees, made, Cell(rows, 0));
    VisitedAll(obstacles, rows, columns);
    VisitedAll(Starts(obstacles, way), rows, columns);
    JoinedWhenConnected(obstacles, way, labelOf, trees, made);
    RootCountFull(trees);
    if count < |trees| && |trees| > 1 {
      assert made[|trees| - 1] in labelOf && labelOf[made[|trees| - 1]] == |trees| - 1;
    }
  }

  /** A cup: its two tips start labels and are joined at the bottom. */
  lemma CupIsReadBeyond(way: Connectivity) returns (obstacles: set<Cell>)
    ensures obstacles == {Cell(0, 0), Cell(0, 2), Cell(1, 0), Cell(1, 1), Cell(1, 2)}
    ensures !StartsApart(obstacles, way)
  {
    obstacles := {Cell(0, 0), Cell(0, 2), Cell(1, 0), Cell(1, 1), Cell(1, 2)};
    ConnectedStep(obstacles, way, Cell(0, 0), Cell(1, 0));
    ConnectedStep(obstacles, way, Cell(1, 0), Cell(1, 1));
    ConnectedStep(obstacles, way, Cell(1, 1), Cell(1, 2));
    ConnectedStep(obstacles, way, Cell(1, 2), Cell(0, 2));
    ConnectedTransitive(obstacles, way, Cell(0, 0), Cell(1, 0), Cell(1, 1));
    ConnectedTransitive(obstacles, way, Cell(0, 0), Cell(1, 1), Cell(1, 2));
    ConnectedTransitive(obstacles, way, Cell(0, 0), Cell(1, 2), Cell(0, 2));
    assert Cell(0, 0) in Starts(obstacles, way) && Cell(0, 2) in Starts(obstacles, way);
  }
}
