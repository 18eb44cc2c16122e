/** Neighbour maxima of an image, computed row by row with a 3x3 shape. */
module Dilation {
  import opened Images
  import opened ObstacleGroups

  type Byte = v: int | 0 <= v < 256

  const NO_INFORMATION: Byte := 255
  const LETHAL_OBSTACLE: Byte := 254
  const INSCRIBED_INFLATED_OBSTACLE: Byte := 253
  const FREE_SPACE: Byte := 0

  /** With replace, unknown cells count as free. */
  function Clean(replace: bool, v: Byte): Byte {
    if replace && v == NO_INFORMATION then FREE_SPACE else v
  }

  function Max(a: Byte, b: Byte): Byte {
    if a < b then b else a
  }

  function Aggregate(replace: bool, a: Byte, b: Byte, c: Byte): Byte {
    Max(Max(Clean(replace, a), Clean(replace, b)), Clean(replace, c))
  }

  /** Rows of the structuring element; 255 takes a neighbour, 0 ignores it. */
  function Shape(way: Connectivity): seq<seq<Byte>> {
    if way == Way8 then [[255, 255, 255], [255, 0, 255], [255, 255, 255]]
    else [[0, 255, 0], [255, 0, 255], [0, 255, 0]]
  }

  function Power2(n: nat): nat {
    if n == 0 then 1 else 2 * Power2(n - 1)
  }

  /** The bitwise and of the low bits. */
  function BitAnd(a: nat, b: nat, bits: nat): (r: nat)
    ensures r < Power2(bits)
  {
    if bits == 0 then 0 else 2 * BitAnd(a / 2, b / 2, bits - 1) + (a % 2) * (b % 2)
  }

  function Masked(value: Byte, mask: Byte): Byte {
    var r := BitAnd(value, mask, 8);
    assert Power2(8) == 256 by {
      assert Power2(4) == 16;
    }
    r
  }

  datatype Triple = Triple(left: Byte, middle: Byte, right: Byte)

  /** A shape row laid over the neighbourhood of (r, c) in that row; what lies outside the image is 0. */
  function Overlay(input: Image<Byte>, shape: seq<Byte>, r: int, c: int): Triple
    requires input.Valid() && input.Inside(r, c) && |shape| == 3
    reads input.data
  {
    Triple(if c > 0 then Masked(input.Pixel(r, c - 1), shape[0]) else 0,
           Masked(input.Pixel(r, c), shape[1]),
           if c + 1 < input.columns then Masked(input.Pixel(r, c + 1), shape[2]) else 0)
  }

  ghost function OverlaidRow(input: Image<Byte>, shape: seq<Byte>, r: int): (row: seq<Triple>)
    requires input.Valid() && 0 <= r < input.rows && |shape| == 3
    reads input.data
    ensures |row| == input.columns
    ensures forall c :: 0 <= c < input.columns ==> row[c] == Overlay(input, shape, r, c)
  {
    seq(input.columns, c requires 0 <= c < input.columns reads input.data => Overlay(input, shape, r, c))
  }

  ghost predicate SameSize<T, U>(a: Image<T>, b: Image<U>) {
    a.rows == b.rows && a.columns == b.columns
  }

  /**
    One pass: row i + firstInput of the input, seen through the shape row, touches row i + firstOutput
    of the output.
  */
  method ProbeRows(
    input: Image<Byte>, firstInput: nat, output: Image<Byte>, firstOutput: nat, shape: seq<Byte>, touch: (Byte,
    Triple) -> Byte)
    requires input.Valid() && output.Valid() && input.data != output.data && SameSize(input, output)
    requires firstInput <= input.rows && firstOutput <= input.rows && input.columns > 0 && |shape| == 3
    modifies output.data
    ensures forall r, c :: output.Inside(r, c) ==>
      output.Pixel(r, c) ==
        if input.Inside(r - firstOutput + firstInput, c) && r >= firstOutput
        then touch(old(output.Pixel(r, c)), Overlay(input, shape, r - firstOutput + firstInput, c))
        else old(output.Pixel(r, c))
  {
    var rows := input.rows - (if firstInput < firstOutput then firstOutput else firstInput);
    for i := 0 to rows
      invariant forall r, c :: output.Inside(r, c) ==>
        output.Pixel(r, c) ==
          if firstOutput <= r < firstOutput + i
          then touch(old(output.Pixel(r, c)), Overlay(input, shape, r - firstOutput + firstInput, c))
          else old(output.Pixel(r, c))
    {
      ProbeRow(input, i + firstInput, output, i + firstOutput, shape, touch);
    }
  }

  method ProbeRow(
    input: Image<Byte>, inRow: nat, output: Image<Byte>, outRow: nat, shape: seq<Byte>, touch: (Byte, Triple) -> Byte)
    requires input.Valid() && output.Valid() && input.data != output.data && SameSize(input, output)
    requires inRow < input.rows && outRow < input.rows && input.columns > 0 && |shape| == 3
    modifies output.data
    ensures forall r, c :: output.Inside(r, c) ==>
      output.Pixel(r, c) ==
        if r == outRow then touch(old(output.Pixel(r, c)), Overlay(input, shape, inRow, c))
        else old(output.Pixel(r, c))
  {
    var last := input.columns - 1;
    ghost var goal := OverlaidRow(input, shape, inRow);
    TouchPixel(output, outRow, 0, touch, FirstOverlay(input, shape, inRow));
    if last > 0 {
      for c := 1 to last
        invariant forall r, k :: output.Inside(r, k) ==>
          output.Pixel(r, k) ==
            if r == outRow && k < c then touch(old(output.Pixel(r, k)), goal[k]) else old(output.Pixel(r, k))
      {
        TouchPixel(output, outRow, c, touch, InnerOverlay(input, shape, inRow, c));
      }
      TouchPixel(output, outRow, last, touch, LastOverlay(input, shape, inRow));
    }
  }

  /** The first column, and the only one of a single column: what lies outside is 0. */
  function FirstOverlay(input: Image<Byte>, shape: seq<Byte>, r: int): (o: Triple)
    requires input.Valid() && input.Inside(r, 0) && |shape| == 3
    reads input.data
    ensures o == Overlay(input, shape, r, 0)
  {
    if input.columns == 1 then Triple(0, Masked(input.Pixel(r, 0), shape[1]), 0)
    else Triple(0, Masked(input.Pixel(r, 0), shape[1]), Masked(input.Pixel(r, 1), shape[2]))
  }

  function InnerOverlay(input: Image<Byte>, shape: seq<Byte>, r: int, c: int): (o: Triple)
    requires input.Valid() && input.Inside(r, c) && 0 < c < input.columns - 1 && |shape| == 3
    reads input.data
    ensures o == Overlay(input, shape, r, c)
  {
    Triple(Masked(input.Pixel(r, c - 1), shape[0]), Masked(input.Pixel(r, c), shape[1]),
           Masked(input.Pixel(r, c + 1), shape[2]))
  }

  function LastOverlay(input: Image<Byte>, shape: seq<Byte>, r: int): (o: Triple)
    requires input.Valid() && input.Inside(r, 0) && input.columns > 1 && |shape| == 3
    reads input.data
    ensures o == Overlay(input, shape, r, input.columns - 1)
  {
    Triple(Masked(input.Pixel(r, input.columns - 2), shape[0]), Masked(input.Pixel(r, input.columns - 1), shape[1]), 0)
  }

  method TouchPixel(output: Image<Byte>, r: nat, c: nat, touch: (Byte, Triple) -> Byte, overlay: Triple)
    requires output.Valid() && output.Inside(r, c)
    modifies output.data
    ensures output.Pixel(r, c) == touch(old(output.Pixel(r, c)), overlay)
    ensures forall r', c' :: output.Inside(r', c') && !(r' == r && c' == c) ==>
      output.Pixel(r', c') == old(output.Pixel(r', c'))
  {
    output.SetPixel(r, c, touch(output.Pixel(r, c), overlay));
  }

  /** Writing the output on the first pass, updating it on the other two. */
  function Set(replace: bool): (Byte, Triple) -> Byte {
    (before: Byte, o: Triple) => Aggregate(replace, o.left, o.middle, o.right)
  }

  function Update(replace: bool): (Byte, Triple) -> Byte {
    (before: Byte, o: Triple) => Aggregate(replace, before, Aggregate(replace, o.left, o.middle, o.right), 0)
  }

  /** A pixel after the first pass, after the second and after all three. */
  function Centre(input: Image<Byte>, way: Connectivity, replace: bool, r: int, c: int): Byte
    requires input.Valid() && input.Inside(r, c)
    reads input.data
  {
    Set(replace)(0, Overlay(input, Shape(way)[1], r, c))
  }

  function Top(input: Image<Byte>, way: Connectivity, replace: bool, r: int, c: int): Byte
    requires input.Valid() && input.Inside(r, c)
    reads input.data
  {
    var centre := Centre(input, way, replace, r, c);
    if r > 0 then Update(replace)(centre, Overlay(input, Shape(way)[0], r - 1, c)) else centre
  }

  function Dilated(input: Image<Byte>, way: Connectivity, replace: bool, r: int, c: int): Byte
    requires input.Valid() && input.Inside(r, c)
    reads input.data
  {
    var top := Top(input, way, replace, r, c);
    if r + 1 < input.rows then Update(replace)(top, Overlay(input, Shape(way)[2], r + 1, c)) else top
  }

  method FirstPass(input: Image<Byte>, output: Image<Byte>, way: Connectivity, replace: bool)
    requires input.Valid() && output.Valid() && input.data != output.data && SameSize(input, output)
    requires input.columns > 0
    modifies output.data
    ensures forall r, c :: output.Inside(r, c) ==> output.Pixel(r, c) == Centre(input, way, replace, r, c)
  {
    ProbeRows(input, 0, output, 0, Shape(way)[1], Set(replace));
  }

  method SecondPass(input: Image<Byte>, output: Image<Byte>, way: Connectivity, replace: bool)
    requires input.Valid() && output.Valid() && input.data != output.data && SameSize(input, output)
    requires input.columns > 0 && input.rows > 1
    requires forall r, c :: output.Inside(r, c) ==> output.Pixel(r, c) == Centre(input, way, replace, r, c)
    modifies output.data
    ensures forall r, c :: output.Inside(r, c) ==> output.Pixel(r, c) == Top(input, way, replace, r, c)
  {
    ProbeRows(input, 0, output, 1, Shape(way)[0], Update(replace));
  }

  method ThirdPass(input: Image<Byte>, output: Image<Byte>, way: Connectivity, replace: bool)
    requires input.Valid() && output.Valid() && input.data != output.data && SameSize(input, output)
    requires input.columns > 0 && input.rows > 1
    requires forall r, c :: output.Inside(r, c) ==> output.Pixel(r, c) == Top(input, way, replace, r, c)
    modifies output.data
    ensures forall r, c :: output.Inside(r, c) ==> output.Pixel(r, c) == Dilated(input, way, replace, r, c)
  {
    ProbeRows(input, 1, output, 0, Shape(way)[2], Update(replace));
  }

  method Dilate(input: Image<Byte>, output: Image<Byte>, way: Connectivity, replace: bool)
    requires input.Valid() && output.Valid() && input.data != output.data && SameSize(input, output)
    modifies output.data
    ensures forall r, c :: output.Inside(r, c) ==> output.Pixel(r, c) == Dilated(input, way, replace, r, c)
  {
    if input.rows == 0 || input.columns == 0 {
      return;
    }
    FirstPass(input, output, way, replace);
    if input.rows > 1 {
      SecondPass(input, output, way, replace);
      ThirdPass(input, output, way, replace);
    }
  }

  // ----- What the passes compute -------------------------------------------------------

  ghost predicate Neighbours(input: Image<Byte>, way: Connectivity, r: int, c: int, r': int, c': int) {
    input.Inside(r', c') && Adjacent(way, Cell(r, c), Cell(r', c'))
  }

  /** m is the greatest of the cell's neighbours, or 0 if there are none. */
  ghost predicate IsNeighbourMax(input: Image<Byte>, way: Connectivity, replace: bool, r: int, c: int, m: Byte)
    requires input.Valid()
    reads input.data
  {
    && (forall r', c' :: Neighbours(input, way, r, c, r', c') ==> Clean(replace, input.Pixel(r', c')) <= m)
    && (m == 0 || exists r', c' :: Neighbours(input, way, r, c, r', c') && Clean(replace, input.Pixel(r', c')) == m)
  }

  lemma AggregateIsMax(replace: bool, a: Byte, b: Byte, c: Byte)
    ensures var m := Aggregate(replace, a, b, c);
      && Clean(replace, a) <= m && Clean(replace, b) <= m && Clean(replace, c) <= m
      && (m == Clean(replace, a) || m == Clean(replace, b) || m == Clean(replace, c))
      && Clean(replace, m) == m
  {
  }

  lemma {:induction false} AllOnes(a: nat, ones: nat, bits: nat, size: nat)
    requires size == Power2(bits) && a < size && ones == size - 1
    ensures BitAnd(a, ones, bits) == a
    ensures BitAnd(a, 0, bits) == 0
  {
    if bits > 0 {
      AllOnes(a / 2, ones / 2, bits - 1, size / 2);
    }
  }

  lemma Masks(v: Byte)
    ensures Masked(v, 255) == v && Masked(v, 0) == 0
  {
    assert Power2(8) == 256 by {
      assert Power2(4) == 16;
    }
    AllOnes(v, 255, 8, 256);
  }

  /** m is the greatest of the cell's neighbours in row r', or 0 if there are none, and needs no more cleaning. */
  ghost predicate IsRowMax(input: Image<Byte>, way: Connectivity, replace: bool, r: int, c: int, r': int, m: Byte)
    requires input.Valid()
    reads input.data
  {
    && (forall c' :: Neighbours(input, way, r, c, r', c') ==> Clean(replace, input.Pixel(r', c')) <= m)
    && (m == 0 || exists c' :: Neighbours(input, way, r, c, r', c') && Clean(replace, input.Pixel(r', c')) == m)
    && Clean(replace, m) == m
  }

  /** What the shape row lets through at offset k - 1. */
  predicate Takes(way: Connectivity, dr: int, k: int) {
    0 <= k < 3 && -1 <= dr <= 1 && Shape(way)[dr + 1][k] == 255
  }

  lemma ShapeTakesNeighbours(way: Connectivity, dr: int, k: int, r: int, c: int)
    requires -1 <= dr <= 1 && 0 <= k < 3
    ensures Takes(way, dr, k) <==> Adjacent(way, Cell(r, c), Cell(r + dr, c + k - 1))
    ensures !Takes(way, dr, k) ==> Shape(way)[dr + 1][k] == 0
  {
  }

  /** What an overlay holds at offset k - 1: the neighbour there, or 0. */
  function Taken(input: Image<Byte>, way: Connectivity, r: int, c: int, r': int, c': int): Byte
    requires input.Valid()
    reads input.data
  {
    if input.Inside(r', c') && Adjacent(way, Cell(r, c), Cell(r', c')) then input.Pixel(r', c') else 0
  }

  lemma OverlayTakes(input: Image<Byte>, way: Connectivity, r: int, c: int, dr: int)
    requires input.Valid() && input.Inside(r, c) && -1 <= dr <= 1 && input.Inside(r + dr, c)
    ensures var o := Overlay(input, Shape(way)[dr + 1], r + dr, c);
      && o.left == Taken(input, way, r, c, r + dr, c - 1)
      && o.middle == Taken(input, way, r, c, r + dr, c)
      && o.right == Taken(input, way, r, c, r + dr, c + 1)
  {
    ShapeTakesNeighbours(way, dr, 0, r, c);
    ShapeTakesNeighbours(way, dr, 1, r, c);
    ShapeTakesNeighbours(way, dr, 2, r, c);
    Masks(input.Pixel(r + dr, c));
    if c > 0 {
      Masks(input.Pixel(r + dr, c - 1));
    }
    if c + 1 < input.columns {
      Masks(input.Pixel(r + dr, c + 1));
    }
  }

  lemma TakenIsRowMax(input: Image<Byte>, way: Connectivity, replace: bool, r: int, c: int, r': int, m: Byte)
    requires input.Valid() && input.Inside(r, c)
    requires m == Aggregate(replace, Taken(input, way, r, c, r', c - 1),
                     Taken(input, way, r, c, r', c), Taken(input, way, r, c, r', c + 1))
    ensures IsRowMax(input, way, replace, r, c, r', m)
  {
    AggregateIsMax(replace, Taken(input, way, r, c, r', c - 1),
                   Taken(input, way, r, c, r', c), Taken(input, way, r, c, r', c + 1));
    forall c' | Neighbours(input, way, r, c, r', c')
      ensures Clean(replace, input.Pixel(r', c')) <= m
    {
      assert c' == c - 1 || c' == c || c' == c + 1;
    }
    if m != 0 {
      assert Neighbours(input, way, r, c, r', c - 1) || Neighbours(input, way, r, c, r', c)
        || Neighbours(input, way, r, c, r', c + 1);
    }
  }

  lemma ProbeIsRowMax(input: Image<Byte>, way: Connectivity, replace: bool, r: int, c: int, dr: int)
    requires input.Valid() && input.Inside(r, c) && -1 <= dr <= 1 && input.Inside(r + dr, c)
    ensures IsRowMax(input, way, replace, r, c, r + dr, Set(replace)(0, Overlay(input, Shape(way)[dr + 1], r + dr, c)))
  {
    OverlayTakes(input, way, r, c, dr);
    TakenIsRowMax(input, way, replace, r, c, r + dr, Set(replace)(0, Overlay(input, Shape(way)[dr + 1], r + dr, c)));
  }

  function RowProbe(input: Image<Byte>, way: Connectivity, replace: bool, r: int, c: int, dr: int): Byte
    requires input.Valid() && -1 <= dr <= 1
    reads input.data
  {
    if input.Inside(r + dr, c) then Set(replace)(0, Overlay(input, Shape(way)[dr + 1], r + dr, c)) else 0
  }

  lemma ProbeIsClean(input: Image<Byte>, way: Connectivity, replace: bool, r: int, c: int, dr: int)
    requires input.Valid() && input.Inside(r, c) && -1 <= dr <= 1
    ensures var probe := RowProbe(input, way, replace, r, c, dr);
      Clean(replace, probe) == probe && (!input.Inside(r + dr, c) ==> probe == 0)
  {
    if input.Inside(r + dr, c) {
      ProbeIsRowMax(input, way, replace, r, c, dr);
    }
  }

  /** Combined in the order of the passes: first the row above, then the row below. */
  function Combined(replace: bool, hasAbove: bool, above: Byte, centre: Byte, hasBelow: bool, below: Byte): Byte {
    var top := if hasAbove then Aggregate(replace, centre, above, 0) else centre;
    if hasBelow then Aggregate(replace, top, below, 0) else top
  }

  lemma DilatedFromRows(input: Image<Byte>, way: Connectivity, replace: bool, r: int, c: int)
    requires input.Valid() && input.Inside(r, c)
    ensures Dilated(input, way, replace, r, c)
         == Combined(replace, r > 0, RowProbe(input, way, replace, r, c, -1), RowProbe(input, way, replace, r, c, 0),
                     r + 1 < input.rows, RowProbe(input, way, replace, r, c, 1))
  {
  }

  lemma CombinedIsMax(replace: bool, hasAbove: bool, above: Byte, centre: Byte, hasBelow: bool, below: Byte)
    requires (!hasAbove ==> above == 0) && (!hasBelow ==> below == 0)
    requires Clean(replace, above) == above && Clean(replace, centre) == centre && Clean(replace, below) == below
    ensures var m := Combined(replace, hasAbove, above, centre, hasBelow, below);
      above <= m && centre <= m && below <= m && (m == above || m == centre || m == below)
  {
    AggregateIsMax(replace, centre, above, 0);
    AggregateIsMax(replace, if hasAbove then Aggregate(replace, centre, above, 0) else centre, below, 0);
  }

  /** Three row passes give the maximum over the whole neighbourhood. */
  lemma DilatedIsNeighbourMax(input: Image<Byte>, way: Connectivity, replace: bool, r: int, c: int)
    requires input.Valid() && input.Inside(r, c)
    ensures IsNeighbourMax(input, way, replace, r, c, Dilated(input, way, replace, r, c))
  {
    var above := RowProbe(input, way, replace, r, c, -1);
    var centre := RowProbe(input, way, replace, r, c, 0);
    var below := RowProbe(input, way, replace, r, c, 1);
    ProbeIsClean(input, way, replace, r, c, -1);
    ProbeIsClean(input, way, replace, r, c, 0);
    ProbeIsClean(input, way, replace, r, c, 1);
    DilatedFromRows(input, way, replace, r, c);
    CombinedIsMax(replace, r > 0, above, centre, r + 1 < input.rows, below);
    ThreeProbes(input, way, replace, r, c, Dilated(input, way, replace, r, c));
  }

  /** What is the greatest of the three probes is the greatest over the neighbourhood. */
  lemma ThreeProbes(input: Image<Byte>, way: Connectivity, replace: bool, r: int, c: int, m: Byte)
    requires input.Valid() && input.Inside(r, c)
    requires var above, centre, below := RowProbe(input, way, replace, r, c, -1),
                                         RowProbe(input, way, replace, r, c, 0),
                                         RowProbe(input, way, replace, r, c, 1);
      above <= m && centre <= m && below <= m && (m == above || m == centre || m == below)
    ensures IsNeighbourMax(input, way, replace, r, c, m)
  {
    if r > 0 {
      ProbeIsRowMax(input, way, replace, r, c, -1);
    }
    ProbeIsRowMax(input, way, replace, r, c, 0);
    if r + 1 < input.rows {
      ProbeIsRowMax(input, way, replace, r, c, 1);
    }
    ThreeRows(input, way, replace, r, c, RowProbe(input, way, replace, r, c, -1),
              RowProbe(input, way, replace, r, c, 0), RowProbe(input, way, replace, r, c, 1), m);
  }

  lemma ThreeRows(
    input: Image<Byte>, way: Connectivity, replace: bool, r: int, c: int, above: Byte, centre: Byte, below: Byte,
    m: Byte)
    requires input.Valid() && input.Inside(r, c)
    requires if r > 0 then IsRowMax(input, way, replace, r, c, r - 1, above) else above == 0
    requires IsRowMax(input, way, replace, r, c, r, centre)
    requires if r + 1 < input.rows then IsRowMax(input, way, replace, r, c, r + 1, below) else below == 0
    requires above <= m && centre <= m && below <= m && (m == above || m == centre || m == below)
    ensures IsNeighbourMax(input, way, replace, r, c, m)
  {
    forall r', c' | Neighbours(input, way, r, c, r', c')
      ensures Clean(replace, input.Pixel(r', c')) <= m
    {
      assert r' == r - 1 || r' == r || r' == r + 1;
    }
  }
}
