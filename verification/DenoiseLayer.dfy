/** The costmap layer that removes small obstacle groups from an updated window of the costmap. */
module DenoiseLayer {
  import opened Denoising
  import opened Dilation
  import opened GroupsRemover
  import opened Images
  import opened LabelCapacity
  import opened LabelScan
  import opened LabelTrees
  import opened ObstacleGroups
  import ScanSteps

  lemma {:induction false} OffsetSum(a: nat, b: nat, step: nat)
    ensures Offset(a, step) + Offset(b, step) == Offset(a + b, step)
  {
    if b > 0 {
      OffsetSum(a, b - 1, step);
    }
  }

  /** The window of a costmap stored row by row. */
  function Window(grid: Image<Byte>, minX: nat, minY: nat, maxX: nat, maxY: nat): Image<Byte>
    requires minX < maxX <= grid.columns && minY < maxY <= grid.rows
  {
    Image(maxY - minY, maxX - minX, grid.data, grid.start + Offset(minY, grid.step) + minX, grid.step)
  }

  lemma WindowIsValid(grid: Image<Byte>, minX: nat, minY: nat, maxX: nat, maxY: nat)
    requires grid.Valid() && minX < maxX <= grid.columns && minY < maxY <= grid.rows
    ensures Window(grid, minX, minY, maxX, maxY).Valid()
  {
    OffsetSum(minY, maxY - minY - 1, grid.step);
    OffsetGrows(maxY - 1, grid.rows - 1, grid.step);
  }

  /** A pixel of the window is the costmap cell the window's corner away; the other cells are not covered. */
  lemma WindowCells(grid: Image<Byte>, minX: nat, minY: nat, maxX: nat, maxY: nat, y: nat, x: nat)
    requires grid.Valid() && minX < maxX <= grid.columns && minY < maxY <= grid.rows && grid.Inside(y, x)
    ensures var window := Window(grid, minX, minY, maxX, maxY);
      && (minY <= y < maxY && minX <= x < maxX ==> grid.Index(y, x) == window.Index(y - minY, x - minX))
      && (!(minY <= y < maxY && minX <= x < maxX) ==> !window.Covers(grid.Index(y, x)))
  {
    var window := Window(grid, minX, minY, maxX, maxY);
    forall r: nat, c: nat | window.Inside(r, c)
      ensures window.Index(r, c) == grid.Index(minY + r, minX + c)
      ensures window.Index(r, c) == grid.Index(y, x) ==> minY + r == y && minX + c == x
    {
      OffsetSum(minY, r, grid.step);
      grid.IndexIsInjective(minY + r, minX + c, y, x);
    }
  }

  class DenoiseLayer {
    var enabled: bool
    var minimalGroupSize: nat
    var groupConnectivityType: Connectivity
    var noInformationIsObstacle: bool
    var current: bool
    const groupsRemover: GroupsRemover

    constructor (minimalGroupSize: nat, way: Connectivity)
    {
      enabled, current := true, false;
      this.minimalGroupSize, groupConnectivityType := minimalGroupSize, way;
      noInformationIsObstacle := true;
      groupsRemover := new GroupsRemover();
    }

    /**
      Deletes the obstacle groups smaller than the minimal size, whichever way it takes. It fails, and
      changes nothing, only when groups have to be labelled and more of them start than there are labels.
    */
    method Denoise(image: Image<Byte>) returns (ok: bool)
      requires image.Valid()
      modifies groupsRemover, groupsRemover.trees, image.data
      ensures image.Values() ==
        if ok then Denoised(old(image.Values()), noInformationIsObstacle, groupConnectivityType, minimalGroupSize)
        else old(image.Values())
      ensures !ok <==>
        && image.rows > 0 && image.columns > 0 && minimalGroupSize > 2
        && |Starts(Obstacles(old(image.Values()), noInformationIsObstacle), groupConnectivityType)|
           >= MaxLabels(image.rows, image.columns, groupConnectivityType, UINT32_MAX)
      ensures forall k :: 0 <= k < image.data.Length && !image.Covers(k) ==> image.data[k] == old(image.data[k])
      ensures groupsRemover.trees == old(groupsRemover.trees) || fresh(groupsRemover.trees)
    {
      if image.rows == 0 || image.columns == 0 {
        return true;
      }
      if minimalGroupSize <= 1 {
        NoSmallerGroup(image.Values(), noInformationIsObstacle, groupConnectivityType, minimalGroupSize);
        return true;
      }
      if minimalGroupSize == 2 {
        RemoveSinglePixels(image, noInformationIsObstacle, groupConnectivityType);
        return true;
      } else {
        ok := groupsRemover.RemoveGroups(image, noInformationIsObstacle, groupConnectivityType, minimalGroupSize);
      }
    }

    /** Denoises the window of the master grid. Cells outside the window are never touched. */
    method UpdateCosts(master: Image<Byte>, defaultValue: Byte, minX: int, minY: int, maxX: int, maxY: int)
      requires master.Valid()
      requires minX < maxX && minY < maxY ==> 0 <= minX && maxX <= master.columns && 0 <= minY && maxY <= master.rows
      modifies this, groupsRemover, groupsRemover.trees, master.data
      ensures !enabled || minX >= maxX || minY >= maxY ==> master.Values() == old(master.Values())
      ensures enabled == old(enabled) && minimalGroupSize == old(minimalGroupSize)
      ensures groupConnectivityType == old(groupConnectivityType)
      ensures enabled && minX < maxX && minY < maxY ==>
        && current && noInformationIsObstacle == (defaultValue != NO_INFORMATION)
        && var window := Window(master, minX, minY, maxX, maxY);
        && window.Valid()
        && var before := old(window.Values());
        && window.Values() ==
           if minimalGroupSize > 2
              && |Starts(Obstacles(before, noInformationIsObstacle), groupConnectivityType)|
                 >= MaxLabels(window.rows, window.columns, groupConnectivityType, UINT32_MAX)
           then before
           else Denoised(before, noInformationIsObstacle, groupConnectivityType, minimalGroupSize)
      ensures forall y: nat, x: nat :: master.Inside(y, x) && !(minY <= y < maxY && minX <= x < maxX) ==>
        master.Pixel(y, x) == old(master.Pixel(y, x))
    {
      if !enabled {
        return;
      }
      if minX >= maxX || minY >= maxY {
        return;
      }
      noInformationIsObstacle := defaultValue != NO_INFORMATION;
      WindowIsValid(master, minX, minY, maxX, maxY);
      var roi := Window(master, minX, minY, maxX, maxY);
      var _ := Denoise(roi);
      current := true;
      forall y: nat, x: nat | master.Inside(y, x) && !(minY <= y < maxY && minX <= x < maxX)
        ensures master.Pixel(y, x) == old(master.Pixel(y, x))
      {
        WindowCells(master, minX, minY, maxX, maxY, y, x);
        master.IndexInBuffer(y, x);
      }
    }
  }

  /** With 4 neighbours, or a window at least two cells wide and high, denoising cannot fail. */
  lemma DenoisingCannotFail(obstacles: set<Cell>, way: Connectivity, rows: nat, columns: nat)
    requires ScanSteps.InRectangle(obstacles, rows, columns) && rows > 0 && columns > 0
    requires rows * columns < 0xFFFF_FFFF
    requires way == Way4 || Roomy(rows, columns)
    ensures |Starts(obstacles, way)| < MaxLabels(rows, columns, way, UINT32_MAX)
  {
    if way == Way4 {
      LabelsSufficeWay4(obstacles, rows, columns, UINT32_MAX);
    } else {
      SufficesWhenRoomy(obstacles, rows, columns, UINT32_MAX);
    }
  }
}
