/** Labelling the connected groups of an image in one scan over its pixels. */
module ConnectedComponents {
  import opened Denoising
  import opened Dilation
  import opened Images
  import opened LabelScan
  import opened LabelTrees
  import opened ObstacleGroups
  import opened ScanSteps
  import opened Wrappers

  /** A window onto the image: what lies outside reads as 0, which is background. */
  predicate IsObstacle(image: Image<Byte>, noInformationIsObstacle: bool, p: Cell)
    requires image.Valid()
    reads image.data
  {
    !IsBackground(noInformationIsObstacle, if image.Inside(p.row, p.column) then image.Pixel(p.row, p.column) else 0)
  }

  lemma ObstacleSeen(image: Image<Byte>, noInformationIsObstacle: bool, p: Cell)
    requires image.Valid()
    ensures IsObstacle(image, noInformationIsObstacle, p) <==> p in Obstacles(image.Values(), noInformationIsObstacle)
  {
  }

  /** What a pass works on: labels of the cells before e, in an image of the same size. */
  ghost predicate Ready(
    image: Image<Byte>, labels: Image<nat>, trees: EquivalenceLabelTrees, noInformationIsObstacle: bool, e: Cell)
    reads image.data, labels.data, trees
  {
    && image.Valid() && labels.Valid() && SameSize(image, labels) && trees.Valid() && image.Inside(e.row, e.column)
    && Readable(Obstacles(image.Values(), noInformationIsObstacle), labels.Values(), trees.nextFree, e)
  }

  method Unite(labels: Image<nat>, trees: EquivalenceLabelTrees, p: Cell, q: Cell) returns (root: nat)
    requires labels.Valid() && labels.Inside(p.row, p.column) && labels.Inside(q.row, q.column) && trees.Valid()
    requires 0 < labels.Pixel(p.row, p.column) < trees.nextFree && 0 < labels.Pixel(q.row, q.column) < trees.nextFree
    modifies trees
    ensures trees.Valid() && trees.labelsSize == old(trees.labelsSize)
    ensures United(labels.Values(), old(trees.labels), p, q, trees.labels, root)
  {
    root := trees.UnionTrees(labels.Pixel(p.row, p.column), labels.Pixel(q.row, q.column));
  }

  method Copy(labels: Image<nat>, p: Cell, ghost trees: seq<nat>) returns (value: nat)
    requires labels.Valid() && labels.Inside(p.row, p.column)
    ensures Copied(labels.Values(), trees, p, trees, value)
  {
    value := labels.Pixel(p.row, p.column);
  }

  /** The label of an obstacle cell of 8 neighbours; None when the labels have run out. */
  method PassWay8(
    image: Image<Byte>, labels: Image<nat>, trees: EquivalenceLabelTrees, noInformationIsObstacle: bool, e: Cell)
    returns (current: Option<nat>)
    requires Ready(image, labels, trees, noInformationIsObstacle, e)
    modifies trees
    ensures trees.Valid() && trees.labelsSize == old(trees.labelsSize)
    ensures current.Some? ==>
      Decided8(Obstacles(image.Values(), noInformationIsObstacle), labels.Values(),
               old(trees.labels), e, trees.labels, current.value)
    ensures current.None? ==>
      && trees.labels == old(trees.labels) && trees.nextFree == trees.labelsSize
      && NothingBefore(Obstacles(image.Values(), noInformationIsObstacle), Way8, e)
  {
    ObstacleSeen(image, noInformationIsObstacle, A(e));
    ObstacleSeen(image, noInformationIsObstacle, B(e));
    ObstacleSeen(image, noInformationIsObstacle, C(e));
    ObstacleSeen(image, noInformationIsObstacle, D(e));
    if e.row > 0 && labels.Pixel(e.row - 1, e.column) != 0 {
      var copied := Copy(labels, B(e), trees.labels);
      current := Some(copied);
    } else if IsObstacle(image, noInformationIsObstacle, C(e)) {
      if IsObstacle(image, noInformationIsObstacle, A(e)) {
        var root := Unite(labels, trees, C(e), A(e));
        current := Some(root);
      } else if IsObstacle(image, noInformationIsObstacle, D(e)) {
        var root := Unite(labels, trees, C(e), D(e));
        current := Some(root);
      } else {
        var copied := Copy(labels, C(e), trees.labels);
        current := Some(copied);
      }
    } else if IsObstacle(image, noInformationIsObstacle, A(e)) {
      var copied := Copy(labels, A(e), trees.labels);
      current := Some(copied);
    } else if IsObstacle(image, noInformationIsObstacle, D(e)) {
      var copied := Copy(labels, D(e), trees.labels);
      current := Some(copied);
    } else {
      current := trees.MakeLabel();
    }
  }

  /** The same for 4 neighbours. */
  method PassWay4(
    image: Image<Byte>, labels: Image<nat>, trees: EquivalenceLabelTrees, noInformationIsObstacle: bool, e: Cell)
    returns (current: Option<nat>)
    requires Ready(image, labels, trees, noInformationIsObstacle, e)
    modifies trees
    ensures trees.Valid() && trees.labelsSize == old(trees.labelsSize)
    ensures current.Some? ==>
      Decided4(Obstacles(image.Values(), noInformationIsObstacle), labels.Values(),
               old(trees.labels), e, trees.labels, current.value)
    ensures current.None? ==>
      && trees.labels == old(trees.labels) && trees.nextFree == trees.labelsSize
      && NothingBefore(Obstacles(image.Values(), noInformationIsObstacle), Way4, e)
  {
    ObstacleSeen(image, noInformationIsObstacle, B(e));
    ObstacleSeen(image, noInformationIsObstacle, D(e));
    if IsObstacle(image, noInformationIsObstacle, B(e)) {
      if IsObstacle(image, noInformationIsObstacle, D(e)) {
        var root := Unite(labels, trees, D(e), B(e));
        current := Some(root);
      } else {
        var copied := Copy(labels, B(e), trees.labels);
        current := Some(copied);
      }
    } else if IsObstacle(image, noInformationIsObstacle, D(e)) {
      var copied := Copy(labels, D(e), trees.labels);
      current := Some(copied);
    } else {
      current := trees.MakeLabel();
    }
  }

  /** The label of pixel e, chosen so that the scan has got past e once the label is written. */
  method NextLabel(
    image: Image<Byte>, labels: Image<nat>, trees: EquivalenceLabelTrees, noInformationIsObstacle: bool,
    way: Connectivity,
    e: Cell, ghost obstacles: set<Cell>)
    returns (current: Option<nat>)
    requires image.Valid() && labels.Valid() && SameSize(image, labels) && image.Inside(e.row, e.column)
    requires obstacles == Obstacles(image.Values(), noInformationIsObstacle)
    requires trees.Valid() && Reached(obstacles, way, labels.Values(), trees.labels, e)
    modifies trees
    ensures trees.Valid() && trees.labelsSize == old(trees.labelsSize)
    ensures current.Some? ==>
      Decided(obstacles, way, labels.Values(), old(trees.labels), e, trees.labels, current.value)
    ensures current.None? ==> |Starts(obstacles, way)| >= trees.labelsSize
  {
    ReachedIsReadable(obstacles, way, labels.Values(), trees.labels, e);
    ObstacleSeen(image, noInformationIsObstacle, e);
    if !IsObstacle(image, noInformationIsObstacle, e) {
      return Some(0);
    }
    ghost var before := trees.labels;
    if way == Way8 {
      current := PassWay8(image, labels, trees, noInformationIsObstacle, e);
    } else {
      current := PassWay4(image, labels, trees, noInformationIsObstacle, e);
    }
    if current.None? {
      MoreStarts(obstacles, way, before, e);
    }
  }

  method SetLabel(labels: Image<nat>, e: Cell, value: nat)
    requires labels.Valid() && labels.Inside(e.row, e.column)
    modifies labels.data
    ensures labels.Values() == old(labels.Values())[e := value]
  {
    labels.SetPixel(e.row, e.column, value);
  }

  /** One pixel; false when the labels have run out. */
  method ScanPixel(
    image: Image<Byte>, labels: Image<nat>, trees: EquivalenceLabelTrees, noInformationIsObstacle: bool,
    way: Connectivity,
    e: Cell, ghost obstacles: set<Cell>)
    returns (ok: bool)
    requires image.Valid() && labels.Valid() && SameSize(image, labels) && image.Inside(e.row, e.column)
    requires obstacles == Obstacles(image.Values(), noInformationIsObstacle)
    requires trees.Valid() && Reached(obstacles, way, labels.Values(), trees.labels, e)
    modifies trees, labels.data
    ensures trees.Valid() && trees.labelsSize == old(trees.labelsSize)
    ensures ok ==> Reached(obstacles, way, labels.Values(), trees.labels, Right(e))
    ensures !ok ==> |Starts(obstacles, way)| >= trees.labelsSize
  {
    ghost var before, values := trees.labels, labels.Values();
    var current := NextLabel(image, labels, trees, noInformationIsObstacle, way, e, obstacles);
    if current.None? {
      return false;
    }
    SetLabel(labels, e, current.value);
    assert labels.Values() == values[e := current.value];
    DecidedGoesOn(obstacles, way, values, before, e, trees.labels, current.value);
    ok := true;
  }

  /** One row; false when the labels have run out. */
  method ScanRow(
    image: Image<Byte>, labels: Image<nat>, trees: EquivalenceLabelTrees, noInformationIsObstacle: bool,
    way: Connectivity,
    row: nat, ghost obstacles: set<Cell>)
    returns (ok: bool)
    requires image.Valid() && labels.Valid() && SameSize(image, labels) && row < image.rows
    requires (image.data as object) != labels.data
    requires obstacles == Obstacles(image.Values(), noInformationIsObstacle)
    requires trees.Valid() && Reached(obstacles, way, labels.Values(), trees.labels, Cell(row, 0))
    modifies trees, labels.data
    ensures trees.Valid() && trees.labelsSize == old(trees.labelsSize)
    ensures ok ==> Reached(obstacles, way, labels.Values(), trees.labels, Cell(row, image.columns))
    ensures !ok ==> |Starts(obstacles, way)| >= trees.labelsSize
  {
    for column := 0 to image.columns
      invariant trees.Valid() && trees.labelsSize == old(trees.labelsSize)
      invariant Reached(obstacles, way, labels.Values(), trees.labels, Cell(row, column))
    {
      assert Right(Cell(row, column)) == Cell(row, column + 1);
      var fits := ScanPixel(image, labels, trees, noInformationIsObstacle, way, Cell(row, column), obstacles);
      if !fits {
        return false;
      }
    }
    ok := true;
  }

  /** All rows; false when the image has more group starts than there are labels. */
  method ScanImage(
    image: Image<Byte>, labels: Image<nat>, trees: EquivalenceLabelTrees, noInformationIsObstacle: bool,
    way: Connectivity,
    ghost obstacles: set<Cell>)
    returns (ok: bool)
    requires image.Valid() && labels.Valid() && SameSize(image, labels)
    requires (image.data as object) != labels.data
    requires obstacles == Obstacles(image.Values(), noInformationIsObstacle)
    requires trees.Valid() && trees.labels == [0]
    modifies trees, labels.data
    ensures trees.Valid()
    ensures ok <==> |Starts(obstacles, way)| < old(trees.labelsSize)
    ensures ok ==> Reached(obstacles, way, labels.Values(), trees.labels, Cell(image.rows, 0))
  {
    FirstPixel(obstacles, way, labels.Values(), image.rows, image.columns);
    for row := 0 to image.rows
      invariant trees.Valid() && trees.labelsSize == old(trees.labelsSize)
      invariant Reached(obstacles, way, labels.Values(), trees.labels, Cell(row, 0))
    {
      var fits := ScanRow(image, labels, trees, noInformationIsObstacle, way, row, obstacles);
      if !fits {
        return false;
      }
      NextRow(obstacles, way, labels.Values(), trees.labels, image.rows, image.columns, row);
    }
    ok := true;
    AllStartsFit(obstacles, way, labels.Values(), trees.labels, image.rows, image.columns);
  }

  lemma AllStartsFit(
    obstacles: set<Cell>, way: Connectivity, labelOf: map<Cell, nat>, trees: seq<nat>, rows: nat, columns: nat)
    requires InRectangle(obstacles, rows, columns) && Reached(obstacles, way, labelOf, trees, Cell(rows, 0))
    ensures |trees| == 1 + |Starts(obstacles, way)|
  {
    VisitedAll(Starts(obstacles, way), rows, columns);
  }

  /** Replaces every label by its entry in the table. */
  method Renumber(labels: Image<nat>, table: seq<nat>)
    requires labels.Valid()
    requires forall p :: p in labels.Values() ==> labels.Values()[p] < |table|
    modifies labels.data
    ensures labels.Values() == Renumbered(old(labels.Values()), table)
  {
    ghost var before := labels.Values();
    for row := 0 to labels.rows
      invariant forall r, c :: labels.Inside(r, c) ==>
        labels.Pixel(r, c) == if r < row then table[before[Cell(r, c)]] else before[Cell(r, c)]
    {
      for column := 0 to labels.columns
        invariant forall r, c :: labels.Inside(r, c) ==>
          labels.Pixel(r, c) == if r < row || (r == row && c < column)
              then table[before[Cell(r, c)]] else before[Cell(r, c)]
      {
        labels.SetPixel(row, column, table[labels.Pixel(row, column)]);
      }
    }
    ValuesByPixel(labels, Renumbered(before, table));
  }

  /** Provisional labels become those of the groups. */
  method LabelGroups(
    labels: Image<nat>, trees: EquivalenceLabelTrees, way: Connectivity, ghost obstacles: set<Cell>)
    returns (count: nat)
    requires labels.Valid() && trees.Valid() && InRectangle(obstacles, labels.rows, labels.columns)
    requires Reached(obstacles, way, labels.Values(), trees.labels, Cell(labels.rows, 0))
    modifies trees, labels.data
    ensures IsLabelling(obstacles, way, labels.Values(), count)
  {
    ghost var provisional, forest := labels.Values(), trees.labels;
    var table;
    table, count := trees.GetLabels();
    ScanLabelsGroups(obstacles, way, provisional, forest, table, count, labels.rows, labels.columns);
    Renumber(labels, table);
  }

  /**
    The labelled image and the number of labels including 0; not ok when the labels ran out. labelMax is
    the largest value of the label type.
  */
  method Label(image: Image<Byte>, trees: EquivalenceLabelTrees, noInformationIsObstacle: bool, way: Connectivity,
      labelMax: nat)
    returns (ok: bool, labels: Image<nat>, count: nat)
    requires image.Valid() && labelMax > 0
    modifies trees
    ensures fresh(labels.data) && labels.Valid() && SameSize(image, labels)
    ensures var obstacles := Obstacles(image.Values(), noInformationIsObstacle);
      && (image.rows > 0 && image.columns > 0 ==>
            (ok <==> |Starts(obstacles, way)| < MaxLabels(image.rows, image.columns, way, labelMax)))
      && (image.rows == 0 || image.columns == 0 ==> ok)
      && (ok ==> IsLabelling(obstacles, way, labels.Values(), count))
  {
    var buffer := new nat[image.rows * image.columns];
    labels := Image(image.rows, image.columns, buffer, 0, image.columns);
    assert labels.Valid() by {
      if image.rows > 0 {
        OffsetIsProduct(image.rows, image.columns);
      }
    }
    if image.rows == 0 || image.columns == 0 {
      return true, labels, 0;
    }
    ghost var obstacles := Obstacles(image.Values(), noInformationIsObstacle);
    trees.Reset(image.rows, image.columns, way, labelMax);
    ok := ScanImage(image, labels, trees, noInformationIsObstacle, way, obstacles);
    count := 0;
    if ok {
      count := LabelGroups(labels, trees, way, obstacles);
    }
  }
}
