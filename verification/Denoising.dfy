/** What denoising a costmap means, and the fast form for groups of one. */
module Denoising {
  import opened Dilation
  import opened Images
  import opened ObstacleGroups

  predicate IsBackground(noInformationIsObstacle: bool, pixel: Byte) {
    !(pixel == LETHAL_OBSTACLE || pixel == INSCRIBED_INFLATED_OBSTACLE
      || (pixel == NO_INFORMATION && noInformationIsObstacle))
  }

  function Obstacles(values: map<Cell, Byte>, noInformationIsObstacle: bool): set<Cell> {
    set p | p in values && !IsBackground(noInformationIsObstacle, values[p])
  }

  /** Every obstacle cell whose group is smaller than n becomes free; nothing else changes. */
  ghost function Denoised(values: map<Cell, Byte>, noInformationIsObstacle: bool, way: Connectivity,
      n: nat): map<Cell, Byte> {
    var obstacles := Obstacles(values, noInformationIsObstacle);
    map p | p in values :: if p in obstacles && |Group(obstacles, way, p)| < n then FREE_SPACE else values[p]
  }

  /** The costs that count as obstacles: lethal, inscribed, and unknown where that is asked for. */
  lemma ObstacleCosts(values: map<Cell, Byte>, noInformationIsObstacle: bool, p: Cell)
    ensures p in Obstacles(values, noInformationIsObstacle)
       <==> p in values && (values[p] == 254 || values[p] == 253 || (values[p] == 255 && noInformationIsObstacle))
  {
  }

  /** A cell's new cost is 0 if it is an obstacle in too small a group, and its old one otherwise. */
  lemma DenoisedCosts(
    values: map<Cell, Byte>, noInformationIsObstacle: bool, way: Connectivity, n: nat, group: set<Cell>, p: Cell)
    requires p in values
    requires forall q :: q in group <==> q in values && Connected(Obstacles(values, noInformationIsObstacle), way, p, q)
    ensures Denoised(values, noInformationIsObstacle, way, n)[p]
         == if p in Obstacles(values, noInformationIsObstacle) && |group| < n then 0 else values[p]
  {
    var obstacles := Obstacles(values, noInformationIsObstacle);
    forall q | Connected(obstacles, way, p, q)
      ensures q in obstacles
    {
      var path :| Links(obstacles, way, path, p, q);
      assert path[|path| - 1] in obstacles;
    }
    assert group == Group(obstacles, way, p);
  }

  /** The obstacles that survive are those of the groups kept. */
  lemma DenoisedObstacles(values: map<Cell, Byte>, noInformationIsObstacle: bool, way: Connectivity, n: nat)
    ensures Obstacles(Denoised(values, noInformationIsObstacle, way, n), noInformationIsObstacle)
         == Kept(Obstacles(values, noInformationIsObstacle), way, n)
  {
  }

  /** A second pass changes nothing. */
  lemma DenoisingTwice(values: map<Cell, Byte>, noInformationIsObstacle: bool, way: Connectivity, n: nat)
    ensures var once := Denoised(values, noInformationIsObstacle, way, n);
      Denoised(once, noInformationIsObstacle, way, n) == once
  {
    var once := Denoised(values, noInformationIsObstacle, way, n);
    var obstacles := Obstacles(values, noInformationIsObstacle);
    DenoisedObstacles(values, noInformationIsObstacle, way, n);
    forall p | p in Kept(obstacles, way, n)
      ensures |Group(Kept(obstacles, way, n), way, p)| >= n
    {
      KeptGroupsAreWhole(obstacles, way, n, p);
    }
  }

  /** Sizes below two delete nothing. */
  lemma NoSmallerGroup(values: map<Cell, Byte>, noInformationIsObstacle: bool, way: Connectivity, n: nat)
    requires n <= 1
    ensures Denoised(values, noInformationIsObstacle, way, n) == values
  {
    var obstacles := Obstacles(values, noInformationIsObstacle);
    forall p | p in obstacles
      ensures |Group(obstacles, way, p)| >= n
    {
      AloneIffNoNeighbour(obstacles, way, p);
    }
  }

  // ----- Single pixels -----------------------------------------------------------------

  lemma BackgroundByOrder(noInformationIsObstacle: bool, v: Byte)
    ensures IsBackground(noInformationIsObstacle, v)
       <==> Clean(!noInformationIsObstacle, v) < INSCRIBED_INFLATED_OBSTACLE
  {
  }

  lemma ObstacleByOrder(image: Image<Byte>, noInformationIsObstacle: bool, r: int, c: int)
    requires image.Valid() && image.Inside(r, c)
    ensures Cell(r, c) in Obstacles(image.Values(), noInformationIsObstacle)
       <==> Clean(!noInformationIsObstacle, image.Pixel(r, c)) >= INSCRIBED_INFLATED_OBSTACLE
  {
    BackgroundByOrder(noInformationIsObstacle, image.Pixel(r, c));
  }

  lemma ObstacleRaisesMax(image: Image<Byte>, noInformationIsObstacle: bool, way: Connectivity, r: int, c: int, m: Byte)
    requires image.Valid() && IsNeighbourMax(image, way, !noInformationIsObstacle, r, c, m)
    requires HasNeighbour(Obstacles(image.Values(), noInformationIsObstacle), way, Cell(r, c))
    ensures m >= INSCRIBED_INFLATED_OBSTACLE
  {
    var b :| b in Obstacles(image.Values(), noInformationIsObstacle) && Adjacent(way, Cell(r, c), b);
    ObstacleByOrder(image, noInformationIsObstacle, b.row, b.column);
    assert Neighbours(image, way, r, c, b.row, b.column);
  }

  lemma HighMaxHasObstacle(image: Image<Byte>, noInformationIsObstacle: bool, way: Connectivity, r: int, c: int,
      m: Byte)
    requires image.Valid() && IsNeighbourMax(image, way, !noInformationIsObstacle, r, c, m)
    requires m >= INSCRIBED_INFLATED_OBSTACLE
    ensures HasNeighbour(Obstacles(image.Values(), noInformationIsObstacle), way, Cell(r, c))
  {
    var r', c' :| Neighbours(image, way, r, c, r', c') && Clean(!noInformationIsObstacle, image.Pixel(r', c')) == m;
    ObstacleByOrder(image, noInformationIsObstacle, r', c');
  }

  /** The neighbour maximum is background exactly when no neighbour is an obstacle. */
  lemma BackgroundMax(image: Image<Byte>, noInformationIsObstacle: bool, way: Connectivity, r: int, c: int)
    requires image.Valid() && image.Inside(r, c)
    ensures IsBackground(noInformationIsObstacle, Dilated(image, way, !noInformationIsObstacle, r, c))
       <==> !HasNeighbour(Obstacles(image.Values(), noInformationIsObstacle), way, Cell(r, c))
  {
    var m := Dilated(image, way, !noInformationIsObstacle, r, c);
    DilatedIsNeighbourMax(image, way, !noInformationIsObstacle, r, c);
    MaxIsClean(image, way, !noInformationIsObstacle, r, c, m);
    BackgroundByOrder(noInformationIsObstacle, m);
    if HasNeighbour(Obstacles(image.Values(), noInformationIsObstacle), way, Cell(r, c)) {
      ObstacleRaisesMax(image, noInformationIsObstacle, way, r, c, m);
    }
    if m >= INSCRIBED_INFLATED_OBSTACLE {
      HighMaxHasObstacle(image, noInformationIsObstacle, way, r, c, m);
    }
  }

  lemma MaxIsClean(image: Image<Byte>, way: Connectivity, replace: bool, r: int, c: int, m: Byte)
    requires image.Valid() && IsNeighbourMax(image, way, replace, r, c, m)
    ensures Clean(replace, m) == m
  {
  }

  /** What the conversion decides at one pixel. */
  predicate Frees(noInformationIsObstacle: bool, pixel: Byte, maxNeighbour: Byte) {
    !IsBackground(noInformationIsObstacle, pixel) && IsBackground(noInformationIsObstacle, maxNeighbour)
  }

  lemma FreesLonePixels(image: Image<Byte>, noInformationIsObstacle: bool, way: Connectivity, r: int, c: int)
    requires image.Valid() && image.Inside(r, c)
    ensures Denoised(image.Values(), noInformationIsObstacle, way, 2)[Cell(r, c)]
         == if Frees(noInformationIsObstacle, image.Pixel(r, c), Dilated(image, way, !noInformationIsObstacle, r, c))
            then FREE_SPACE else image.Pixel(r, c)
  {
    var obstacles := Obstacles(image.Values(), noInformationIsObstacle);
    BackgroundMax(image, noInformationIsObstacle, way, r, c);
    if Cell(r, c) in obstacles {
      AloneIffNoNeighbour(obstacles, way, Cell(r, c));
    }
  }

  lemma ValuesByPixel<T>(image: Image<T>, values: map<Cell, T>)
    requires image.Valid() && values.Keys == Cells(image.rows, image.columns)
    requires forall r, c :: image.Inside(r, c) ==> image.Pixel(r, c) == values[Cell(r, c)]
    ensures image.Values() == values
  {
  }

  method RemoveSinglePixels(image: Image<Byte>, noInformationIsObstacle: bool, way: Connectivity)
    requires image.Valid()
    modifies image.data
    ensures image.Values() == Denoised(old(image.Values()), noInformationIsObstacle, way, 2)
    ensures forall k :: 0 <= k < image.data.Length && !image.Covers(k) ==> image.data[k] == old(image.data[k])
  {
    var buffer := new Byte[image.rows * image.columns];
    var maxNeighbours := Image(image.rows, image.columns, buffer, 0, image.columns);
    assert maxNeighbours.Valid() by {
      if image.rows > 0 {
        OffsetIsProduct(image.rows, image.columns);
      }
    }
    Dilate(image, maxNeighbours, way, !noInformationIsObstacle);
    ghost var after := Denoised(image.Values(), noInformationIsObstacle, way, 2);
    forall r, c | image.Inside(r, c)
      ensures after[Cell(r, c)]
           == if Frees(noInformationIsObstacle, image.Pixel(r, c), maxNeighbours.Pixel(r, c))
              then FREE_SPACE else image.Pixel(r, c)
    {
      FreesLonePixels(image, noInformationIsObstacle, way, r, c);
      assert maxNeighbours.Inside(r, c);
    }
    Convert(maxNeighbours, image, noInformationIsObstacle);
    ValuesByPixel(image, after);
  }

  /** Frees the obstacle pixels whose neighbour maximum is background. */
  method Convert(source: Image<Byte>, target: Image<Byte>, noInformationIsObstacle: bool)
    requires source.Valid() && target.Valid() && source.data != target.data && SameSize(source, target)
    modifies target.data
    ensures forall r, c :: target.Inside(r, c) ==>
      target.Pixel(r, c) ==
        if Frees(noInformationIsObstacle, old(target.Pixel(r, c)), source.Pixel(r, c))
        then FREE_SPACE else old(target.Pixel(r, c))
    ensures forall k :: 0 <= k < target.data.Length && !target.Covers(k) ==> target.data[k] == old(target.data[k])
  {
    for row := 0 to source.rows
      invariant forall r, c :: target.Inside(r, c) ==>
        target.Pixel(r, c) ==
          if r < row && Frees(noInformationIsObstacle, old(target.Pixel(r, c)), source.Pixel(r, c))
          then FREE_SPACE else old(target.Pixel(r, c))
      invariant forall k :: 0 <= k < target.data.Length && !target.Covers(k) ==> target.data[k] == old(target.data[k])
    {
      for column := 0 to source.columns
        invariant forall r, c :: target.Inside(r, c) ==>
          target.Pixel(r, c) ==
            if (r < row || (r == row && c < column))
               && Frees(noInformationIsObstacle, old(target.Pixel(r, c)), source.Pixel(r, c))
            then FREE_SPACE else old(target.Pixel(r, c))
        invariant forall k :: 0 <= k < target.data.Length && !target.Covers(k) ==> target.data[k] == old(target.data[k])
      {
        if Frees(noInformationIsObstacle, target.Pixel(row, column), source.Pixel(row, column)) {
          target.SetPixel(row, column, FREE_SPACE);
        }
      }
    }
  }
}
