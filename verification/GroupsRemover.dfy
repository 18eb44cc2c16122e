/** Removing small groups by labelling them and counting their cells. */
module GroupsRemover {
  import opened ConnectedComponents
  import opened Denoising
  import opened Dilation
  import opened Images
  import opened LabelScan
  import opened LabelTrees
  import opened ObstacleGroups
  import opened ScanSteps

  function CellsWith(labelOf: map<Cell, nat>, v: nat): set<Cell> {
    set p | p in labelOf && labelOf[p] == v
  }

  /** A labelling numbers groups: the cells that share an obstacle's label are its group. */
  lemma CellsWithLabelAreGroup(obstacles: set<Cell>, way: Connectivity, labelOf: map<Cell, nat>, count: nat, p: Cell)
    requires IsLabelling(obstacles, way, labelOf, count) && p in obstacles
    ensures CellsWith(labelOf, labelOf[p]) == Group(obstacles, way, p)
  {
  }

  function AtMost(n: nat, max: nat): nat {
    if n < max then n else max
  }

  /** Cells with label v before a place in the image. */
  ghost function Tally(labelOf: map<Cell, nat>, v: nat, at: Cell): nat {
    |Visited(CellsWith(labelOf, v), at)|
  }

  lemma TallyStarts(labelOf: map<Cell, nat>, v: nat, rows: nat, columns: nat)
    requires InRectangle(labelOf.Keys, rows, columns)
    ensures Tally(labelOf, v, Cell(0, 0)) == 0
    ensures Tally(labelOf, v, Cell(rows, 0)) == |CellsWith(labelOf, v)|
  {
    VisitedAll(CellsWith(labelOf, v), rows, columns);
  }

  lemma TallyNext(labelOf: map<Cell, nat>, e: Cell)
    requires e in labelOf
    ensures forall v :: Tally(labelOf, v, Right(e)) == Tally(labelOf, v, e) + (if v == labelOf[e] then 1 else 0)
  {
    forall v
      ensures Tally(labelOf, v, Right(e)) == Tally(labelOf, v, e) + (if v == labelOf[e] then 1 else 0)
    {
      VisitedNext(CellsWith(labelOf, v), e);
    }
  }

  lemma TallyNextRow(labelOf: map<Cell, nat>, rows: nat, columns: nat, row: int)
    requires InRectangle(labelOf.Keys, rows, columns)
    ensures forall v :: Tally(labelOf, v, Cell(row + 1, 0)) == Tally(labelOf, v, Cell(row, columns))
  {
    forall v
      ensures Tally(labelOf, v, Cell(row + 1, 0)) == Tally(labelOf, v, Cell(row, columns))
    {
      VisitedNextRow(CellsWith(labelOf, v), rows, columns, row);
    }
  }

  /** The bins hold the tallies up to a place in the image, cut off at binMax. */
  ghost predicate Binned(bins: seq<nat>, labelOf: map<Cell, nat>, at: Cell, binMax: nat) {
    forall v :: 0 <= v < |bins| ==> bins[v] == AtMost(Tally(labelOf, v, at), binMax)
  }

  lemma BinNext(bins: seq<nat>, labelOf: map<Cell, nat>, e: Cell, binMax: nat)
    requires e in labelOf && labelOf[e] < |bins| && Binned(bins, labelOf, e, binMax)
    ensures Binned(bins[labelOf[e] := AtMost(bins[labelOf[e]] + 1, binMax)], labelOf, Right(e), binMax)
  {
    TallyNext(labelOf, e);
  }

  /** One more pixel in its bin. */
  method CountPixel(bins: array<nat>, pixel: nat, binMax: nat, ghost values: map<Cell, nat>, ghost e: Cell)
    requires e in values && values[e] == pixel < bins.Length && Binned(bins[..], values, e, binMax)
    modifies bins
    ensures Binned(bins[..], values, Right(e), binMax)
  {
    BinNext(bins[..], values, e, binMax);
    ghost var before := bins[..];
    bins[pixel] := AtMost(bins[pixel] + 1, binMax);
    assert bins[..] == before[pixel := AtMost(before[pixel] + 1, binMax)];
  }

  method CountRow(labels: Image<nat>, bins: array<nat>, row: nat, binMax: nat, ghost values: map<Cell, nat>)
    requires labels.Valid() && row < labels.rows && bins != labels.data && values == labels.Values()
    requires forall p :: p in values ==> values[p] < bins.Length
    requires Binned(bins[..], values, Cell(row, 0), binMax)
    modifies bins
    ensures Binned(bins[..], values, Cell(row, labels.columns), binMax)
  {
    for column := 0 to labels.columns
      invariant Binned(bins[..], values, Cell(row, column), binMax)
    {
      var pixel := labels.Pixel(row, column);
      assert values[Cell(row, column)] == pixel;
      CountPixel(bins, pixel, binMax, values, Cell(row, column));
    }
  }

  /** How often each label below size occurs, cut off at binMax. */
  method Histogram(labels: Image<nat>, size: nat, binMax: nat) returns (bins: array<nat>)
    requires labels.Valid()
    requires forall p :: p in labels.Values() ==> labels.Values()[p] < size
    ensures fresh(bins) && bins.Length == size
    ensures forall v :: 0 <= v < size ==> bins[v] == AtMost(|CellsWith(labels.Values(), v)|, binMax)
  {
    ghost var values := labels.Values();
    bins := new nat[size](i => 0);
    forall v | 0 <= v < size
      ensures Tally(values, v, Cell(0, 0)) == 0
      ensures Tally(values, v, Cell(labels.rows, 0)) == |CellsWith(values, v)|
    {
      TallyStarts(values, v, labels.rows, labels.columns);
    }
    for row := 0 to labels.rows
      invariant Binned(bins[..], values, Cell(row, 0), binMax)
    {
      CountRow(labels, bins, row, binMax, values);
      TallyNextRow(values, labels.rows, labels.columns, row);
    }
  }

  /** Frees the obstacle pixels whose label is marked as noise. */
  method FreeNoise(labels: Image<nat>, image: Image<Byte>, noise: seq<bool>, noInformationIsObstacle: bool)
    requires labels.Valid() && image.Valid() && SameSize(labels, image)
    requires (labels.data as object) != image.data
    requires forall p :: p in labels.Values() ==> labels.Values()[p] < |noise|
    modifies image.data
    ensures forall r, c :: image.Inside(r, c) ==>
      image.Pixel(r, c) ==
        if !IsBackground(noInformationIsObstacle, old(image.Pixel(r, c))) && noise[labels.Values()[Cell(r, c)]]
        then FREE_SPACE else old(image.Pixel(r, c))
    ensures forall k :: 0 <= k < image.data.Length && !image.Covers(k) ==> image.data[k] == old(image.data[k])
  {
    ghost var values := labels.Values();
    for row := 0 to image.rows
      invariant forall r, c :: image.Inside(r, c) ==>
        image.Pixel(r, c) ==
          if r < row && !IsBackground(noInformationIsObstacle, old(image.Pixel(r, c))) && noise[values[Cell(r, c)]]
          then FREE_SPACE else old(image.Pixel(r, c))
      invariant forall k :: 0 <= k < image.data.Length && !image.Covers(k) ==> image.data[k] == old(image.data[k])
    {
      for column := 0 to image.columns
        invariant forall r, c :: image.Inside(r, c) ==>
          image.Pixel(r, c) ==
            if (r < row || (r == row && c < column))
               && !IsBackground(noInformationIsObstacle, old(image.Pixel(r, c))) && noise[values[Cell(r, c)]]
            then FREE_SPACE else old(image.Pixel(r, c))
        invariant forall k :: 0 <= k < image.data.Length && !image.Covers(k) ==> image.data[k] == old(image.data[k])
      {
        assert labels.Pixel(row, column) == values[Cell(row, column)];
        if !IsBackground(noInformationIsObstacle, image.Pixel(row, column)) && noise[labels.Pixel(row, column)] {
          image.SetPixel(row, column, FREE_SPACE);
        }
      }
    }
  }

  /** A group is noise by its bin just when it is smaller than n. */
  lemma NoiseIsSmallGroup(
    values: map<Cell, Byte>, noInformationIsObstacle: bool, way: Connectivity, n: nat, labelOf: map<Cell, nat>,
    count: nat, p: Cell)
    requires IsLabelling(Obstacles(values, noInformationIsObstacle), way, labelOf, count)
    requires p in values && p in labelOf
    ensures Denoised(values, noInformationIsObstacle, way, n)[p]
         == if !IsBackground(noInformationIsObstacle, values[p]) && AtMost(|CellsWith(labelOf, labelOf[p])|, n + 1) < n
            then FREE_SPACE else values[p]
  {
    var obstacles := Obstacles(values, noInformationIsObstacle);
    if p in obstacles {
      CellsWithLabelAreGroup(obstacles, way, labelOf, count, p);
    }
  }

  /** Freeing the obstacles whose label is noise is the denoising that is wanted. */
  ghost predicate NoiseDecides(
    values: map<Cell, Byte>, noInformationIsObstacle: bool, way: Connectivity, n: nat, labelOf: map<Cell, nat>,
    noise: seq<bool>)
  {
    forall p :: p in values ==>
      && p in labelOf && labelOf[p] < |noise|
      && Denoised(values, noInformationIsObstacle, way, n)[p]
         == if !IsBackground(noInformationIsObstacle, values[p]) && noise[labelOf[p]] then FREE_SPACE else values[p]
  }

  /** Bins decide noise as group sizes do, whatever the bin of label 0. */
  lemma NoiseFreesSmallGroups(
    values: map<Cell, Byte>, noInformationIsObstacle: bool, way: Connectivity, n: nat, labelOf: map<Cell, nat>,
    count: nat,
    noise: seq<bool>)
    requires IsLabelling(Obstacles(values, noInformationIsObstacle), way, labelOf, count)
    requires labelOf.Keys == values.Keys && |noise| == count
    requires forall v :: 0 < v < count ==> noise[v] == (AtMost(|CellsWith(labelOf, v)|, n + 1) < n)
    ensures NoiseDecides(values, noInformationIsObstacle, way, n, labelOf, noise)
  {
    forall p | p in values
      ensures Denoised(values, noInformationIsObstacle, way, n)[p]
           == if !IsBackground(noInformationIsObstacle, values[p]) && noise[labelOf[p]] then FREE_SPACE else values[p]
    {
      NoiseIsSmallGroup(values, noInformationIsObstacle, way, n, labelOf, count, p);
    }
  }

  /** The bin of label 0 is cleared first, then every label whose bin is below n is noise. */
  method NoiseTable(bins: array<nat>, n: nat) returns (noise: seq<bool>)
    modifies bins
    ensures |noise| == bins.Length
    ensures forall v :: 0 < v < |noise| ==> noise[v] == (old(bins[v]) < n)
  {
    if bins.Length > 0 {
      bins[0] := 0;
    }
    noise := [];
    for v := 0 to bins.Length
      invariant |noise| == v
      invariant forall w :: 0 <= w < v ==> noise[w] == (bins[w] < n)
    {
      noise := noise + [bins[v] < n];
    }
  }

  /** Which labels number groups smaller than n. */
  method FindNoise(labels: Image<nat>, count: nat, n: nat) returns (noise: seq<bool>)
    requires labels.Valid()
    requires forall p :: p in labels.Values() ==> labels.Values()[p] < count
    ensures |noise| == count
    ensures forall v :: 0 < v < count ==> noise[v] == (AtMost(|CellsWith(labels.Values(), v)|, n + 1) < n)
  {
    var bins := Histogram(labels, count, n + 1);
    noise := NoiseTable(bins, n);
  }

  /** Labels the image and finds out which labels are noise. */
  method MarkNoise(
    image: Image<Byte>, trees: EquivalenceLabelTrees, noInformationIsObstacle: bool, way: Connectivity, n: nat,
    labelMax: nat)
    returns (ok: bool, labels: Image<nat>, noise: seq<bool>)
    requires image.Valid() && image.rows > 0 && image.columns > 0 && labelMax > 0
    modifies trees
    ensures fresh(labels.data) && labels.Valid() && SameSize(image, labels)
    ensures ok <==> |Starts(Obstacles(image.Values(), noInformationIsObstacle), way)|
                    < MaxLabels(image.rows, image.columns, way, labelMax)
    ensures ok ==> NoiseDecides(image.Values(), noInformationIsObstacle, way, n, labels.Values(), noise)
  {
    noise := [];
    var count;
    ok, labels, count := Label(image, trees, noInformationIsObstacle, way, labelMax);
    if ok {
      noise := FindNoise(labels, count, n);
      NoiseFreesSmallGroups(image.Values(), noInformationIsObstacle, way, n, labels.Values(), count, noise);
    }
  }

  /** Removes the groups smaller than n; not ok, and nothing removed, when the labels run out. */
  method TryRemoveGroups(
    image: Image<Byte>, trees: EquivalenceLabelTrees, noInformationIsObstacle: bool, way: Connectivity, n: nat,
    labelMax: nat)
    returns (ok: bool)
    requires image.Valid() && image.rows > 0 && image.columns > 0 && labelMax > 0
    modifies trees, image.data
    ensures ok <==> |Starts(Obstacles(old(image.Values()), noInformationIsObstacle), way)|
                    < MaxLabels(image.rows, image.columns, way, labelMax)
    ensures image.Values() ==
      if ok then Denoised(old(image.Values()), noInformationIsObstacle, way, n) else old(image.Values())
    ensures forall k :: 0 <= k < image.data.Length && !image.Covers(k) ==> image.data[k] == old(image.data[k])
  {
    var labels, noise;
    ok, labels, noise := MarkNoise(image, trees, noInformationIsObstacle, way, n, labelMax);
    if !ok {
      return;
    }
    ghost var values := image.Values();
    FreeNoise(labels, image, noise, noInformationIsObstacle);
    ValuesByPixel(image, Denoised(values, noInformationIsObstacle, way, n));
  }

  const UINT16_MAX: nat := 0xFFFF
  const UINT32_MAX: nat := 0xFFFF_FFFF

  /** Starts with 16-bit labels and goes over to 32 bits for good when they do not suffice. */
  class GroupsRemover {
    var trees: EquivalenceLabelTrees
    var wide: bool

    constructor ()
      ensures !wide && fresh(trees)
    {
      trees := new EquivalenceLabelTrees();
      wide := false;
    }

    /** Not ok when even 32-bit labels run out; the image is then unchanged. */
    method RemoveGroups(image: Image<Byte>, noInformationIsObstacle: bool, way: Connectivity, n: nat) returns (ok: bool)
      requires image.Valid() && image.rows > 0 && image.columns > 0
      modifies this, trees, image.data
      ensures ok <==> |Starts(Obstacles(old(image.Values()), noInformationIsObstacle), way)|
                      < MaxLabels(image.rows, image.columns, way, UINT32_MAX)
      ensures image.Values() ==
        if ok then Denoised(old(image.Values()), noInformationIsObstacle, way, n) else old(image.Values())
      ensures forall k :: 0 <= k < image.data.Length && !image.Covers(k) ==> image.data[k] == old(image.data[k])
      ensures old(wide) ==> wide
      ensures trees == old(trees) || fresh(trees)
    {
      ok := false;
      if !wide {
        ok := TryRemoveGroups(image, trees, noInformationIsObstacle, way, n, UINT16_MAX);
      }
      if !ok {
        if !wide {
          trees := new EquivalenceLabelTrees();
          wide := true;
        }
        ok := TryRemoveGroups(image, trees, noInformationIsObstacle, way, n, UINT32_MAX);
      }
    }
  }
}
